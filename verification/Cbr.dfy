/**
  The channel busy ratio: recorded busy intervals per trace context, the
  clip-sort-merge sweep that measures their union, front pruning, and the
  mean over radios. Times are integer ticks; a busy interval [start, end)
  covers the ticks it contains.
 */
module Cbr {
  import opened Prelude
  import opened Pool

  datatype Interval = Interval(start: int, end: int)

  /** The deque of one trace context; `node` is the radio its path names, if it names one. */
  datatype Entry = Entry(context: string, node: Option<Node>, intervals: seq<Interval>)

  datatype Filter = Absent | Present(accepts: Node -> bool) {
    predicate Passes(n: Node) {
      this.Absent? || accepts(n)
    }
  }

  /** `parse` reads the radio out of a context path; `evalEnd < 0` means an open evaluation window. */
  datatype Config = Config(window: int, evalStart: int, evalEnd: int, evaluated: seq<Node>, parse: string -> Option<Node>) {
    ghost predicate Ok() {
      0 < window && NoDup(evaluated)
    }
  }

  // ----- The measure of a union of intervals -----

  ghost predicate Covers(intervals: seq<Interval>, t: int) {
    exists i :: 0 <= i < |intervals| && intervals[i].start <= t < intervals[i].end
  }

  /** How many ticks of [lo, hi) the intervals cover. */
  ghost function Measure(intervals: seq<Interval>, lo: int, hi: int): (m: nat)
    ensures lo <= hi ==> m <= hi - lo
    decreases hi - lo
  {
    if hi <= lo then 0 else Measure(intervals, lo, hi - 1) + if Covers(intervals, hi - 1) then 1 else 0
  }

  ghost function Fraction(intervals: seq<Interval>, now: int, window: int): (f: real)
    requires 0 < window
    ensures 0.0 <= f <= 1.0
  {
    var m := Measure(intervals, now - window, now);
    RatioInRange(m as real, window as real);
    m as real / window as real
  }

  lemma RatioInRange(m: real, w: real)
    requires 0.0 <= m <= w && 0.0 < w
    ensures 0.0 <= m / w <= 1.0
  {
    var q := m / w;
    assert q * w == m;
    assert (1.0 - q) * w == w - m;
  }

  /** The measure counts the covered ticks. */
  lemma {:induction false} MeasureCounts(intervals: seq<Interval>, lo: int, hi: int)
    ensures Measure(intervals, lo, hi) == |set t | lo <= t < hi && Covers(intervals, t)|
    decreases hi - lo
  {
    hide Covers;
    var ticks := set t | lo <= t < hi && Covers(intervals, t);
    if lo < hi {
      MeasureCounts(intervals, lo, hi - 1);
      var before := set t | lo <= t < hi - 1 && Covers(intervals, t);
      assert ticks == before + if Covers(intervals, hi - 1) then {hi - 1} else {};
    } else {
      assert ticks == {};
    }
  }

  /** The fraction is the share of covered ticks in the window before `now`. */
  lemma FractionIsShare(intervals: seq<Interval>, now: int, window: int)
    requires 0 < window
    ensures Fraction(intervals, now, window) * window as real
         == |set t | now - window <= t < now && Covers(intervals, t)| as real
  {
    MeasureCounts(intervals, now - window, now);
    QuotientTimes(Measure(intervals, now - window, now) as real, window as real);
  }

  lemma QuotientTimes(m: real, w: real)
    requires w != 0.0
    ensures (m / w) * w == m
  {
  }

  lemma {:induction false} MeasureSame(a: seq<Interval>, b: seq<Interval>, lo: int, hi: int)
    requires forall t :: lo <= t < hi ==> (Covers(a, t) <==> Covers(b, t))
    ensures Measure(a, lo, hi) == Measure(b, lo, hi)
    decreases hi - lo
  {
    if lo < hi {
      MeasureSame(a, b, lo, hi - 1);
    }
  }

  lemma {:induction false} MeasureSplit(a: seq<Interval>, lo: int, mid: int, hi: int)
    requires lo <= mid <= hi
    ensures Measure(a, lo, hi) == Measure(a, lo, mid) + Measure(a, mid, hi)
    decreases hi - mid
  {
    if mid < hi {
      MeasureSplit(a, lo, mid, hi - 1);
    }
  }

  lemma {:induction false} MeasureFull(a: seq<Interval>, lo: int, hi: int)
    requires lo <= hi && forall t :: lo <= t < hi ==> Covers(a, t)
    ensures Measure(a, lo, hi) == hi - lo
    decreases hi - lo
  {
    if lo < hi {
      MeasureFull(a, lo, hi - 1);
    }
  }

  lemma {:induction false} MeasureNone(a: seq<Interval>, lo: int, hi: int)
    requires forall t :: lo <= t < hi ==> !Covers(a, t)
    ensures Measure(a, lo, hi) == 0
    decreases hi - lo
  {
    if lo < hi {
      MeasureNone(a, lo, hi - 1);
    }
  }

  // ----- The sweep -----

  ghost predicate SortedByStart(a: seq<Interval>) {
    forall i, j :: 0 <= i < j < |a| ==> a[i].start <= a[j].start
  }

  method SortByStart(a: seq<Interval>) returns (r: seq<Interval>)
    ensures SortedByStart(r) && multiset(r) == multiset(a)
  {
    r := [];
    for i := 0 to |a|
      invariant SortedByStart(r) && multiset(r) == multiset(a[..i])
    {
      assert a[..i + 1] == a[..i] + [a[i]];
      InsertKeepsSorted(r, a[i]);
      r := InsertByStart(r, a[i]);
    }
    assert a[..|a|] == a;
  }

  function InsertByStart(a: seq<Interval>, x: Interval): (r: seq<Interval>)
    ensures multiset(r) == multiset(a) + multiset{x}
  {
    if a == [] || x.start < a[0].start then [x] + a
    else
      assert a == [a[0]] + a[1..];
      [a[0]] + InsertByStart(a[1..], x)
  }

  lemma {:induction false} InsertKeepsSorted(a: seq<Interval>, x: Interval)
    requires SortedByStart(a)
    ensures SortedByStart(InsertByStart(a, x))
  {
    if a != [] && a[0].start <= x.start {
      InsertKeepsSorted(a[1..], x);
      var rest := InsertByStart(a[1..], x);
      forall y | y in rest ensures a[0].start <= y.start {
        assert y in multiset(a[1..]) + multiset{x};
      }
      assert forall i :: 0 <= i < |rest| ==> rest[i] in rest;
    }
  }

  method Clip(intervals: seq<Interval>, cutoff: int, now: int) returns (clipped: seq<Interval>)
    ensures forall x :: x in clipped ==> cutoff <= x.start < x.end <= now
    ensures forall t :: cutoff <= t < now ==> (Covers(clipped, t) <==> Covers(intervals, t))
  {
    clipped := [];
    for i := 0 to |intervals|
      invariant forall x :: x in clipped ==> cutoff <= x.start < x.end <= now
      invariant forall t :: cutoff <= t < now ==> (Covers(clipped, t) <==> Covers(intervals[..i], t))
    {
      var start := if intervals[i].start < cutoff then cutoff else intervals[i].start;
      var end := if intervals[i].end > now then now else intervals[i].end;
      ghost var before := clipped;
      if end > start {
        clipped := clipped + [Interval(start, end)];
      }
      forall t | cutoff <= t < now ensures Covers(clipped, t) <==> Covers(intervals[..i + 1], t) {
        CoversSnoc(intervals, i, t);
        if end > start {
          CoversAppend(before, Interval(start, end), t);
        }
      }
    }
    assert intervals[..|intervals|] == intervals;
  }

  lemma CoversAppend(a: seq<Interval>, x: Interval, t: int)
    ensures Covers(a + [x], t) <==> Covers(a, t) || x.start <= t < x.end
  {
    if Covers(a, t) {
      var i :| 0 <= i < |a| && a[i].start <= t < a[i].end;
      assert (a + [x])[i] == a[i];
    }
    assert (a + [x])[|a|] == x;
  }

  lemma CoversSnoc(a: seq<Interval>, i: nat, t: int)
    requires i < |a|
    ensures Covers(a[..i + 1], t) <==> Covers(a[..i], t) || a[i].start <= t < a[i].end
  {
    assert a[..i + 1] == a[..i] + [a[i]];
    CoversAppend(a[..i], a[i], t);
  }

  lemma CoversPermuted(a: seq<Interval>, b: seq<Interval>, t: int)
    requires multiset(a) == multiset(b) && Covers(a, t)
    ensures Covers(b, t)
  {
    var i :| 0 <= i < |a| && a[i].start <= t < a[i].end;
    assert a[i] in multiset(b);
  }

  /** Merging sorted intervals adds up the measure of their union. */
  method Merge(sorted: seq<Interval>, cutoff: int, now: int) returns (busy: int)
    requires sorted != [] && SortedByStart(sorted)
    requires forall x :: x in sorted ==> cutoff <= x.start < x.end <= now
    ensures busy == Measure(sorted, cutoff, now)
  {
    busy := 0;
    var mergedStart, mergedEnd := sorted[0].start, sorted[0].end;
    MergeStarts(sorted, cutoff);
    for i := 1 to |sorted|
      invariant cutoff <= mergedStart < mergedEnd <= now && mergedStart <= sorted[i - 1].start
      invariant Swept(sorted[..i], cutoff, busy, mergedStart, mergedEnd)
    {
      ghost var b, s, e := busy, mergedStart, mergedEnd;
      assert sorted[i] in sorted;
      if sorted[i].start <= mergedEnd {
        mergedEnd := if sorted[i].end > mergedEnd then sorted[i].end else mergedEnd;
      } else {
        busy := busy + (mergedEnd - mergedStart);
        mergedStart, mergedEnd := sorted[i].start, sorted[i].end;
      }
      MergeStep(sorted, i, cutoff, b, s, e);
    }
    busy := busy + (mergedEnd - mergedStart);
    assert sorted[..|sorted|] == sorted;
    MeasureSplit(sorted, cutoff, mergedStart, now);
    MeasureSplit(sorted, mergedStart, mergedEnd, now);
    MeasureFull(sorted, mergedStart, mergedEnd);
    MeasureNone(sorted, mergedEnd, now);
  }

  /** `busy` ticks are covered before the pending interval [start, end), all of it is covered, and nothing after it. */
  ghost predicate Swept(a: seq<Interval>, cutoff: int, busy: int, start: int, end: int) {
    && busy == Measure(a, cutoff, start)
    && (forall t :: start <= t < end ==> Covers(a, t))
    && (forall t :: end <= t ==> !Covers(a, t))
  }

  lemma MergeStarts(sorted: seq<Interval>, cutoff: int)
    requires sorted != [] && cutoff <= sorted[0].start
    ensures Swept(sorted[..1], cutoff, 0, sorted[0].start, sorted[0].end)
  {
    MeasureNone(sorted[..1], cutoff, sorted[0].start);
    forall t | sorted[0].start <= t < sorted[0].end ensures Covers(sorted[..1], t) {
      assert sorted[..1][0] == sorted[0];
    }
  }

  lemma MergeStep(sorted: seq<Interval>, i: nat, cutoff: int, busy: int, start: int, end: int)
    requires 0 < i < |sorted| && SortedByStart(sorted) && sorted[i].start < sorted[i].end
    requires cutoff <= start < end && start <= sorted[i - 1].start && Swept(sorted[..i], cutoff, busy, start, end)
    ensures var x := sorted[i];
      if x.start <= end then Swept(sorted[..i + 1], cutoff, busy, start, if x.end > end then x.end else end)
      else Swept(sorted[..i + 1], cutoff, busy + (end - start), x.start, x.end)
  {
    var x, old', new' := sorted[i], sorted[..i], sorted[..i + 1];
    forall t ensures Covers(new', t) <==> Covers(old', t) || x.start <= t < x.end {
      CoversSnoc(sorted, i, t);
    }
    if x.start <= end {
      MeasureSame(old', new', cutoff, start);
    } else {
      MeasureSame(old', new', cutoff, x.start);
      MeasureSplit(old', cutoff, start, x.start);
      MeasureSplit(old', start, end, x.start);
      MeasureFull(old', start, end);
      MeasureNone(old', end, x.start);
    }
  }

  /** The sweep returns the covered share of the window, for intervals in any order; the cap at 1 is never needed. */
  method ComputeBusyFraction(intervals: seq<Interval>, now: int, window: int) returns (r: real)
    requires 0 < window
    ensures r == Fraction(intervals, now, window)
  {
    var cutoff := now - window;
    var clipped := Clip(intervals, cutoff, now);
    MeasureSame(clipped, intervals, cutoff, now);
    if clipped == [] {
      MeasureNone(clipped, cutoff, now);
      return 0.0;
    }
    var sorted := SortByStart(clipped);
    forall t ensures Covers(sorted, t) <==> Covers(clipped, t) {
      if Covers(sorted, t) {
        CoversPermuted(sorted, clipped, t);
      }
      if Covers(clipped, t) {
        CoversPermuted(clipped, sorted, t);
      }
    }
    MeasureSame(sorted, clipped, cutoff, now);
    assert sorted != [] by {
      assert clipped[0] in multiset(sorted);
    }
    assert forall x :: x in sorted ==> x in multiset(clipped);
    var busy := Merge(sorted, cutoff, now);
    var share := busy as real / window as real;
    RatioInRange(busy as real, window as real);
    r := if 1.0 < share then 1.0 else share;
  }
}
