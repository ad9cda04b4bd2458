/** The preprocessor's search for the densest time window whose samples all have an allowed number of vehicles. */
module ActiveWindow {
  import opened Prelude

  /** The sampling step in milliseconds. */
  const STEP := 100

  datatype Sample = Sample(time: int, count: int)

  /** `length` samples make a window; counts must lie in [low, high]. */
  datatype Params = Params(low: int, high: int, length: nat) {
    predicate Allows(count: int) {
      low <= count <= high
    }
  }

  datatype Candidate = Candidate(start: int, end: int, sum: int)

  ghost predicate Sorted(rows: seq<Sample>) {
    forall i, j :: 0 <= i < j < |rows| ==> rows[i].time < rows[j].time
  }

  // ----- Windows -----

  /** Row `k` continues a window: it is allowed and one step after the row before. */
  predicate Continues(p: Params, rows: seq<Sample>, k: nat)
    requires 0 < k < |rows|
  {
    p.Allows(rows[k].count) && rows[k].time == rows[k - 1].time + STEP
  }

  /** The rows from `i` up to `end` are allowed and consecutive. */
  ghost predicate IsRun(p: Params, rows: seq<Sample>, i: nat, end: nat)
    requires end <= |rows|
  {
    i <= end && (i < end ==> p.Allows(rows[i].count)) && forall k :: i < k < end ==> Continues(p, rows, k)
  }

  ghost predicate IsWindow(p: Params, rows: seq<Sample>, i: nat) {
    i + p.length <= |rows| && IsRun(p, rows, i, i + p.length)
  }

  function Total(rows: seq<Sample>, i: nat, n: nat): int
    requires i + n <= |rows|
  {
    if n == 0 then 0 else Total(rows, i, n - 1) + rows[i + n - 1].count
  }

  function CandidateAt(p: Params, rows: seq<Sample>, i: nat): Candidate
    requires 0 < p.length && i + p.length <= |rows|
  {
    Candidate(rows[i].time, rows[i + p.length - 1].time, Total(rows, i, p.length))
  }

  /** The windows that end within the first `n` rows, by start. */
  ghost function Windows(p: Params, rows: seq<Sample>, n: nat): seq<Candidate>
    requires 0 < p.length && n <= |rows|
  {
    if n < p.length then []
    else
      var i := n - p.length;
      Windows(p, rows, n - 1) + if IsWindow(p, rows, i) then [CandidateAt(p, rows, i)] else []
  }

  /** `c` is a window that ends within the first `n` rows. */
  ghost predicate Found(p: Params, rows: seq<Sample>, n: nat, c: Candidate)
    requires 0 < p.length && n <= |rows|
  {
    exists i: nat :: i + p.length <= n && IsWindow(p, rows, i) && c == CandidateAt(p, rows, i)
  }

  lemma {:induction false} WindowsMembers(p: Params, rows: seq<Sample>, n: nat, c: Candidate)
    requires 0 < p.length && n <= |rows|
    ensures c in Windows(p, rows, n) <==> Found(p, rows, n, c)
  {
    if n >= p.length {
      WindowsMembers(p, rows, n - 1, c);
      var last, before := n - p.length, Windows(p, rows, n - 1);
      assert c in Windows(p, rows, n) <==> c in before || (IsWindow(p, rows, last) && c == CandidateAt(p, rows, last));
      if Found(p, rows, n, c) {
        var i: nat :| i + p.length <= n && IsWindow(p, rows, i) && c == CandidateAt(p, rows, i);
        assert i == last || Found(p, rows, n - 1, c);
      }
    }
  }

  ghost predicate StartsApart(s: seq<Candidate>) {
    forall a, b :: 0 <= a < b < |s| ==> s[a].start != s[b].start
  }

  lemma {:induction false} WindowsStartApart(p: Params, rows: seq<Sample>, n: nat)
    requires 0 < p.length && n <= |rows| && Sorted(rows)
    ensures StartsApart(Windows(p, rows, n))
  {
    if n >= p.length {
      WindowsStartApart(p, rows, n - 1);
      var before := Windows(p, rows, n - 1);
      forall a | 0 <= a < |before| ensures before[a].start < rows[n - p.length].time {
        assert before[a] in before;
        WindowsMembers(p, rows, n - 1, before[a]);
      }
    }
  }

  // ----- Closing a run -----

  /** No window crosses the boundary before row `j`. */
  ghost predicate Boundary(p: Params, rows: seq<Sample>, j: nat) {
    forall i: nat :: i < j < i + p.length ==> !IsWindow(p, rows, i)
  }

  lemma {:induction false} NothingAcross(p: Params, rows: seq<Sample>, j: nat, n: nat)
    requires 0 < p.length && j <= n <= |rows| && Boundary(p, rows, j) && n < j + p.length
    ensures Windows(p, rows, n) == Windows(p, rows, j)
  {
    if j < n {
      NothingAcross(p, rows, j, n - 1);
    }
  }

  lemma RunHoldsWindows(p: Params, rows: seq<Sample>, j: nat, end: nat, i: nat)
    requires 0 < p.length && end <= |rows| && IsRun(p, rows, j, end) && j <= i && i + p.length <= end
    ensures IsWindow(p, rows, i)
  {
    assert i == j || Continues(p, rows, i);
  }

  lemma {:induction false} TotalSplits(rows: seq<Sample>, j: nat, a: nat, n: nat)
    requires j + a + n <= |rows|
    ensures Total(rows, j, a + n) == Total(rows, j, a) + Total(rows, j + a, n)
  {
    if n > 0 {
      TotalSplits(rows, j, a, n - 1);
    }
  }

  lemma TotalOfOne(rows: seq<Sample>, j: nat)
    requires j < |rows|
    ensures Total(rows, j, 0) == 0 && Total(rows, j, 1) == rows[j].count
  {
    assert Total(rows, j, 0) == 0;
  }

  method PrefixSums(rows: seq<Sample>, j: nat, end: nat) returns (prefix: seq<int>)
    requires j <= end <= |rows|
    ensures |prefix| == end - j + 1 && forall k :: 0 <= k < |prefix| ==> prefix[k] == Total(rows, j, k)
  {
    prefix := [0];
    for k := 0 to end - j
      invariant |prefix| == k + 1 && forall m :: 0 <= m <= k ==> prefix[m] == Total(rows, j, m)
    {
      prefix := prefix + [prefix[k] + rows[j + k].count];
    }
  }

  /** Append the windows of the run of rows from `j` to `end`, with their sums from prefix differences. */
  method AddRun(p: Params, rows: seq<Sample>, j: nat, end: nat, candidates: seq<Candidate>) returns (r: seq<Candidate>)
    requires 0 < p.length && j <= end <= |rows| && IsRun(p, rows, j, end) && Boundary(p, rows, j)
    requires candidates == Windows(p, rows, j)
    ensures r == Windows(p, rows, end)
  {
    hide IsRun, Boundary, Continues, IsWindow, Total;
    r := candidates;
    if end - j < p.length {
      NothingAcross(p, rows, j, end);
      return;
    }
    var prefix := PrefixSums(rows, j, end);
    NothingAcross(p, rows, j, j + p.length - 1);
    for o := 0 to end - j - p.length + 1
      invariant r == Windows(p, rows, j + o + p.length - 1)
    {
      var total := prefix[o + p.length] - prefix[o];
      TotalSplits(rows, j, o, p.length);
      RunHoldsWindows(p, rows, j, end, j + o);
      r := r + [Candidate(rows[j + o].time, rows[j + o + p.length - 1].time, total)];
    }
  }

  lemma GapIsBoundary(p: Params, rows: seq<Sample>, k: nat)
    requires k < |rows| && (k > 0 ==> !Continues(p, rows, k))
    ensures Boundary(p, rows, k)
  {
  }

  lemma WindowAllows(p: Params, rows: seq<Sample>, i: nat, k: nat)
    requires IsWindow(p, rows, i) && i <= k < i + p.length
    ensures p.Allows(rows[k].count)
  {
    assert i == k || Continues(p, rows, k);
  }

  lemma BadRowIsBoundary(p: Params, rows: seq<Sample>, k: nat)
    requires 0 < p.length && k < |rows| && !p.Allows(rows[k].count)
    ensures Boundary(p, rows, k + 1) && Windows(p, rows, k + 1) == Windows(p, rows, k)
  {
    forall i: nat | i <= k < i + p.length ensures !IsWindow(p, rows, i) {
      if IsWindow(p, rows, i) {
        WindowAllows(p, rows, i, k);
      }
    }
  }

  method CollectWindows(p: Params, rows: seq<Sample>) returns (candidates: seq<Candidate>)
    requires 0 < p.length && Sorted(rows)
    ensures candidates == Windows(p, rows, |rows|)
  {
    candidates := [];
    var runStart := 0;
    for k := 0 to |rows|
      invariant runStart <= k && IsRun(p, rows, runStart, k) && Boundary(p, rows, runStart)
      invariant candidates == Windows(p, rows, runStart)
    {
      var validCount := p.Allows(rows[k].count);
      var contiguous := k == 0 || rows[k].time == rows[k - 1].time + STEP;
      if validCount && (runStart == k || contiguous) {
        // The run grows by this row.
      } else {
        candidates := AddRun(p, rows, runStart, k, candidates);
        if validCount {
          GapIsBoundary(p, rows, k);
          runStart := k;
        } else {
          BadRowIsBoundary(p, rows, k);
          runStart := k + 1;
        }
      }
    }
    candidates := AddRun(p, rows, runStart, |rows|, candidates);
  }

  // ----- Ranking -----

  /** Larger sums first, earlier starts first among equal sums. */
  predicate Ahead(a: Candidate, b: Candidate) {
    a.sum > b.sum || (a.sum == b.sum && a.start < b.start)
  }

  ghost predicate Ranked(s: seq<Candidate>) {
    forall i, j :: 0 <= i < j < |s| ==> !Ahead(s[j], s[i])
  }

  function Insert(s: seq<Candidate>, c: Candidate): (r: seq<Candidate>)
    ensures multiset(r) == multiset(s) + multiset{c}
  {
    if s == [] || Ahead(c, s[0]) then [c] + s
    else
      assert s == [s[0]] + s[1..];
      [s[0]] + Insert(s[1..], c)
  }

  lemma {:induction false} InsertKeepsRanked(s: seq<Candidate>, c: Candidate)
    requires Ranked(s)
    ensures Ranked(Insert(s, c))
  {
    if s != [] && !Ahead(c, s[0]) {
      InsertKeepsRanked(s[1..], c);
      var rest := Insert(s[1..], c);
      forall x | x in rest ensures !Ahead(x, s[0]) {
        assert x in multiset(s[1..]) + multiset{c};
      }
      assert forall i :: 0 <= i < |rest| ==> rest[i] in rest;
    }
  }

  method Rank(candidates: seq<Candidate>) returns (r: seq<Candidate>)
    ensures Ranked(r) && multiset(r) == multiset(candidates)
  {
    r := [];
    for i := 0 to |candidates|
      invariant Ranked(r) && multiset(r) == multiset(candidates[..i])
    {
      assert candidates[..i + 1] == candidates[..i] + [candidates[i]];
      InsertKeepsRanked(r, candidates[i]);
      r := Insert(r, candidates[i]);
    }
    assert candidates[..|candidates|] == candidates;
  }

  /**
    The candidates are exactly the windows, each once with its true sum;
    they are ranked, so the first has the greatest sum and, among those, the earliest start.
   */
  method FindActiveWindowCandidates(p: Params, rows: seq<Sample>) returns (candidates: seq<Candidate>)
    requires 0 < p.length && Sorted(rows)
    ensures forall c :: c in candidates <==> Found(p, rows, |rows|, c)
    ensures NoDup(candidates)
    ensures forall c :: c in candidates ==> c == candidates[0] || Ahead(candidates[0], c)
    ensures forall i, j :: 0 <= i < j < |candidates| ==>
        candidates[i].sum > candidates[j].sum
        || (candidates[i].sum == candidates[j].sum && candidates[i].start < candidates[j].start)
  {
    var windows := CollectWindows(p, rows);
    candidates := Rank(windows);
    forall c ensures c in candidates <==> Found(p, rows, |rows|, c) {
      WindowsMembers(p, rows, |rows|, c);
      assert c in candidates <==> c in multiset(windows);
    }
    WindowsStartApart(p, rows, |rows|);
    RankedStrictly(windows, candidates);
  }

  lemma RankedStrictly(windows: seq<Candidate>, ranked: seq<Candidate>)
    requires Ranked(ranked) && multiset(ranked) == multiset(windows)
    requires StartsApart(windows)
    ensures forall i, j :: 0 <= i < j < |ranked| ==> Ahead(ranked[i], ranked[j])
    ensures NoDup(ranked)
  {
    forall i, j | 0 <= i < j < |ranked| ensures Ahead(ranked[i], ranked[j]) {
      if ranked[i].start == ranked[j].start {
        SameStart(windows, ranked, i, j);
      }
    }
  }

  lemma SameStart(windows: seq<Candidate>, ranked: seq<Candidate>, i: nat, j: nat)
    requires multiset(ranked) == multiset(windows) && i < j < |ranked|
    requires StartsApart(windows)
    ensures ranked[i].start != ranked[j].start
  {
    assert ranked[i] in multiset(windows) && ranked[j] in multiset(windows);
    if ranked[i] == ranked[j] {
      TwiceCounts(ranked, i, j);
      OnceCounts(windows, ranked[i]);
    }
  }

  lemma TwiceCounts(s: seq<Candidate>, i: nat, j: nat)
    requires i < j < |s| && s[i] == s[j]
    ensures multiset(s)[s[i]] >= 2
  {
    assert s == s[..i] + [s[i]] + s[i + 1..j] + [s[j]] + s[j + 1..];
  }

  lemma {:induction false} OnceCounts(s: seq<Candidate>, c: Candidate)
    requires StartsApart(s)
    ensures multiset(s)[c] <= 1
  {
    if s != [] {
      var init, last := s[..|s| - 1], s[|s| - 1];
      OnceCounts(init, c);
      assert s == init + [last];
      assert last !in init by {
        assert forall a :: 0 <= a < |init| ==> s[a].start != s[|s| - 1].start;
      }
    }
  }

  // ----- Windows by time -----

  ghost predicate HasSample(p: Params, rows: seq<Sample>, t: int) {
    exists i :: 0 <= i < |rows| && rows[i].time == t && p.Allows(rows[i].count)
  }

  /** Every sample from `t` to the end of the window exists with an allowed count. */
  ghost predicate Complete(p: Params, rows: seq<Sample>, t: int) {
    forall k :: 0 <= k < p.length ==> HasSample(p, rows, t + k * STEP)
  }

  /** No sample of the window's time span lies off its grid. */
  ghost predicate NoStray(p: Params, rows: seq<Sample>, t: int) {
    forall j :: 0 <= j < |rows| && t <= rows[j].time <= t + (p.length - 1) * STEP ==> (rows[j].time - t) % STEP == 0
  }

  lemma {:induction false} WindowTimes(p: Params, rows: seq<Sample>, i: nat, k: nat)
    requires IsWindow(p, rows, i) && k < p.length
    ensures rows[i + k].time == rows[i].time + k * STEP && p.Allows(rows[i + k].count)
  {
    if k > 0 {
      WindowTimes(p, rows, i, k - 1);
      assert Continues(p, rows, i + k);
    }
  }

  lemma {:induction false} SpacedIsRun(p: Params, rows: seq<Sample>, i: nat, k: nat)
    requires i + p.length <= |rows| && k <= p.length
    requires forall j :: i <= j < i + p.length ==>
        p.low <= rows[j].count <= p.high && rows[j].time == rows[i].time + (j - i) * 100
    ensures IsRun(p, rows, i, i + k)
  {
    if k > 0 {
      SpacedIsRun(p, rows, i, k - 1);
      if k > 1 {
        assert rows[i + k - 1].time == rows[i].time + (k - 1) * 100;
        assert rows[i + k - 2].time == rows[i].time + (k - 2) * 100;
      }
    }
  }

  /**
    A candidate is found if and only if its rows all have a count from `low`
    to `high` and lie 100 ms apart; it spans the times of its rows.
   */
  lemma FoundIff(p: Params, rows: seq<Sample>, c: Candidate)
    requires 0 < p.length
    ensures Found(p, rows, |rows|, c)
       <==> exists i: nat :: i + p.length <= |rows| && c == CandidateAt(p, rows, i)
              && forall j :: i <= j < i + p.length ==>
                   p.low <= rows[j].count <= p.high && rows[j].time == rows[i].time + (j - i) * 100
    ensures Found(p, rows, |rows|, c) ==> c.end == c.start + (p.length - 1) * 100
  {
    if Found(p, rows, |rows|, c) {
      var i: nat :| i + p.length <= |rows| && IsWindow(p, rows, i) && c == CandidateAt(p, rows, i);
      forall j | i <= j < i + p.length
        ensures p.low <= rows[j].count <= p.high && rows[j].time == rows[i].time + (j - i) * 100
      {
        WindowTimes(p, rows, i, j - i);
      }
    }
    forall i: nat | i + p.length <= |rows| && c == CandidateAt(p, rows, i)
        && forall j :: i <= j < i + p.length ==>
             p.low <= rows[j].count <= p.high && rows[j].time == rows[i].time + (j - i) * 100
      ensures Found(p, rows, |rows|, c)
    {
      SpacedIsRun(p, rows, i, p.length);
    }
  }

  lemma WindowIsComplete(p: Params, rows: seq<Sample>, i: nat)
    requires Sorted(rows) && IsWindow(p, rows, i) && 0 < p.length
    ensures Complete(p, rows, rows[i].time) && NoStray(p, rows, rows[i].time)
  {
    forall k | 0 <= k < p.length ensures HasSample(p, rows, rows[i].time + k * STEP) {
      WindowTimes(p, rows, i, k);
    }
    WindowTimes(p, rows, i, p.length - 1);
    forall j | 0 <= j < |rows| && rows[i].time <= rows[j].time <= rows[i].time + (p.length - 1) * STEP
      ensures (rows[j].time - rows[i].time) % STEP == 0
    {
      assert i <= j < i + p.length;
      WindowTimes(p, rows, i, j - i);
    }
  }

  lemma SortedIndex(rows: seq<Sample>, i: nat, j: nat)
    requires Sorted(rows) && i < |rows| && j < |rows| && rows[i].time < rows[j].time
    ensures i < j
  {
  }

  /** The next row of a complete span without strays is one step later. */
  lemma NextOnGrid(p: Params, rows: seq<Sample>, t: int, m: nat, k: nat)
    requires Sorted(rows) && NoStray(p, rows, t) && 0 < k < p.length
    requires m < |rows| && rows[m].time == t + (k - 1) * STEP && HasSample(p, rows, t + k * STEP)
    ensures m + 1 < |rows| && rows[m + 1].time == t + k * STEP && p.Allows(rows[m + 1].count)
  {
    var j :| 0 <= j < |rows| && rows[j].time == t + k * STEP && p.Allows(rows[j].count);
    SortedIndex(rows, m, j);
    assert rows[m].time < rows[m + 1].time <= rows[j].time;
    assert t <= rows[m + 1].time <= t + (p.length - 1) * STEP;
    assert (rows[m + 1].time - t) % STEP == 0;
    assert rows[m + 1].time == rows[j].time;
    assert m + 1 == j;
  }

  lemma CompleteHas(p: Params, rows: seq<Sample>, t: int, k: nat)
    requires Complete(p, rows, t) && k < p.length
    ensures HasSample(p, rows, t + k * STEP)
  {
  }

  lemma FirstIsAllowed(p: Params, rows: seq<Sample>, i: nat)
    requires Sorted(rows) && i < |rows| && HasSample(p, rows, rows[i].time)
    ensures p.Allows(rows[i].count)
  {
    var j :| 0 <= j < |rows| && rows[j].time == rows[i].time && p.Allows(rows[j].count);
    assert j == i;
  }

  lemma {:induction false} CompleteIsRun(p: Params, rows: seq<Sample>, i: nat, k: nat)
    requires Sorted(rows) && i < |rows| && Complete(p, rows, rows[i].time) && NoStray(p, rows, rows[i].time)
        && 0 < k <= p.length
    ensures i + k <= |rows| && IsRun(p, rows, i, i + k) && rows[i + k - 1].time == rows[i].time + (k - 1) * STEP
  {
    hide Sorted, Complete, NoStray, HasSample;
    var t := rows[i].time;
    CompleteHas(p, rows, t, k - 1);
    if k == 1 {
      assert t + (k - 1) * STEP == t;
      FirstIsAllowed(p, rows, i);
    } else {
      CompleteIsRun(p, rows, i, k - 1);
      NextOnGrid(p, rows, t, i + k - 2, k - 1);
    }
  }

  /**
    A row starts a candidate if and only if all samples of its window exist
    with allowed counts and no other sample lies in between; with all times on
    one grid the second condition always holds.
   */
  lemma WindowIff(p: Params, rows: seq<Sample>, i: nat)
    requires Sorted(rows) && i < |rows| && 0 < p.length
    ensures IsWindow(p, rows, i) <==> Complete(p, rows, rows[i].time) && NoStray(p, rows, rows[i].time)
    ensures (forall j :: 0 <= j < |rows| ==> rows[j].time % STEP == 0) ==> NoStray(p, rows, rows[i].time)
  {
    if IsWindow(p, rows, i) {
      WindowIsComplete(p, rows, i);
    }
    if Complete(p, rows, rows[i].time) && NoStray(p, rows, rows[i].time) {
      CompleteIsRun(p, rows, i, p.length);
    }
  }

  /** A sample between the grid points hides a window all of whose samples exist. */
  lemma StrayHidesWindow()
    ensures var p, rows := Params(1, 1, 2), [Sample(0, 1), Sample(50, 1), Sample(100, 1)];
      Sorted(rows) && Complete(p, rows, 0) && !IsWindow(p, rows, 0)
  {
    var p, rows := Params(1, 1, 2), [Sample(0, 1), Sample(50, 1), Sample(100, 1)];
    assert rows[0].time == 0 && rows[1].time == 50 && rows[2].time == 100;
    assert HasSample(p, rows, 0 * STEP) && HasSample(p, rows, 1 * STEP);
    assert (rows[1].time - 0) % STEP != 0;
    WindowIff(p, rows, 0);
  }
}
