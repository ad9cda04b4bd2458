/**
  When the radios last: the exact condition for a schedule on arbitrary
  tracks, what it amounts to on tracks of a common time grid, and what the
  sampled peak count guarantees.
 */
module PoolRoom {
  import opened Prelude
  import opened Mobility
  import opened Pool
  import opened Schedule
  import opened Agenda

  // ----- Vehicles that need a radio -----

  /** Assigned up to `t` and not released before `t`. */
  predicate Held(rows: seq<Row>, sim: int, t: int)
    requires rows != []
  {
    && (StartsInitially(rows) || (HasAssign(rows, sim) && First(rows) <= t))
    && !(HasRelease(rows, sim) && Last(rows) + EPS < t)
  }

  ghost function HeldAt(s: Setup, t: int): set<Vehicle>
    requires s.Ok()
  {
    set v | v in s.ids && Held(s.tracks[v], s.sim, t)
  }

  ghost predicate FitsAt(s: Setup, t: int)
    requires s.Ok()
  {
    |HeldAt(s, t)| <= |s.nodes|
  }

  /** At every moment of the run the vehicles that hold a radio are no more than the radios. */
  ghost predicate FitsAlways(s: Setup)
    requires s.Ok()
  {
    forall t :: 0 <= t <= s.sim ==> FitsAt(s, t)
  }

  // ----- Enough -----

  lemma ActiveAreHeld(s: Setup, now: int, queue: seq<Event>, active: set<Vehicle>, t: int)
    requires s.Ok() && AgendaInv(s, now, queue, active) && now <= t && forall e :: e in queue ==> t <= e.time
    ensures active <= HeldAt(s, t)
  {
    forall v | v in active ensures v in HeldAt(s, t) {
      var rows := s.tracks[v];
      assert HasAssign(rows, s.sim) ==> Scheduled(s, AssignAt(First(rows), v));
    }
  }

  lemma RadioLeft(s: Setup, p: PoolView, v: Vehicle, t: int)
    requires s.Ok() && PoolInv(s.tracks, ToSet(s.nodes), p) && FitsAt(s, t)
    requires v !in p.active && p.active + {v} <= HeldAt(s, t)
    ensures p.free != []
  {
    PoolConservation(s.tracks, ToSet(s.nodes), p);
    NoDupCardinality(s.nodes);
    SubsetCardinality(p.active + {v}, HeldAt(s, t));
  }

  lemma AssignmentFindsRadio(s: Setup, now: int, queue: seq<Event>, p: PoolView)
    requires s.Ok() && FitsAlways(s)
    requires PoolInv(s.tracks, ToSet(s.nodes), p) && AgendaInv(s, now, queue, p.active)
    requires queue != [] && queue[0].AssignAt?
    ensures p.free != []
  {
    var v, t := queue[0].vehicle, queue[0].time;
    assert queue[0] in queue;
    NotYetAssigned(s, now, queue, p.active);
    TailMembers(queue);
    ActiveAreHeld(s, now, queue, p.active, t);
    assert FitsAt(s, t);
    RadioLeft(s, p, v, t);
  }

  lemma FreeRadioIsLent(s: Setup, p: PoolView, v: Vehicle)
    requires s.Ok() && PoolInv(s.tracks, ToSet(s.nodes), p) && v in s.ids && v !in p.active && p.free != []
    ensures Assign(s.tracks, p, v).Ok?
  {
    MobilityIsNeverMissing(s.tracks, ToSet(s.nodes), p, v);
  }

  lemma {:induction false} InitialFindsRadio(s: Setup, k: nat)
    requires s.Ok() && FitsAlways(s) && k <= |s.ids|
    ensures AssignInitial(s, k).Ok?
  {
    hide PoolInv, Assign;
    if k > 0 {
      InitialFindsRadio(s, k - 1);
      InitialActive(s, k - 1);
      var p, v := AssignInitial(s, k - 1).value, s.ids[k - 1];
      assert v in s.ids && v !in s.ids[..k - 1];
      if StartsInitially(s.tracks[v]) {
        assert FitsAt(s, 0);
        RadioLeft(s, p, v, 0);
        FreeRadioIsLent(s, p, v);
      }
    }
  }

  /** If the vehicles fit, no prefix of the schedule stops the simulator, whichever way ties fall. */
  lemma {:induction false} FitIsEnough(s: Setup, queue: seq<Event>, k: nat)
    requires s.Ok() && FitsAlways(s) && QueueFor(s, queue) && k <= |queue|
    ensures After(s, queue, k).Ok?
  {
    hide PoolInv, AgendaInv, QueueFor, FitsAlways;
    if k == 0 {
      InitialFindsRadio(s, |s.ids|);
    } else {
      FitIsEnough(s, queue, k - 1);
      EventsKeepInv(s, queue, k - 1);
      var p, now, rest := After(s, queue, k - 1).value, TimeAfter(queue, k - 1), queue[k - 1..];
      if rest[0].AssignAt? {
        AssignmentFindsRadio(s, now, rest, p);
      }
      OnlyExhaustionAborts(s, now, rest, p);
    }
  }

  // ----- Necessary -----

  /** Still to come once everything before `t` and the assignments at `t` have fired. */
  predicate Late(e: Event, t: int) {
    t < e.time || (t == e.time && e.ReleaseAt?)
  }

  predicate AtMost(a: Event, b: Event) {
    a.time < b.time || (a.time == b.time && (a.AssignAt? || b.ReleaseAt?))
  }

  /** Assignments come before releases of the same moment. */
  ghost predicate AssignsFirst(queue: seq<Event>) {
    forall i, j :: 0 <= i < j < |queue| ==> AtMost(queue[i], queue[j])
  }

  /** How many events come before the late ones. */
  lemma SplitAt(queue: seq<Event>, t: int) returns (k: nat)
    requires AssignsFirst(queue)
    ensures k <= |queue| && (forall e :: e in queue[..k] ==> !Late(e, t)) && forall e :: e in queue[k..] ==> Late(e, t)
  {
    k := |queue|;
    while k > 0 && Late(queue[k - 1], t)
      invariant k <= |queue| && forall e :: e in queue[k..] ==> Late(e, t)
    {
      k := k - 1;
      assert queue[k..] == [queue[k]] + queue[k + 1..];
    }
    assert forall i :: 0 <= i < k - 1 ==> AtMost(queue[i], queue[k - 1]);
  }

  /** When exactly the late events are still to come, every vehicle held is active. */
  lemma FitWasNeeded(s: Setup, now: int, queue: seq<Event>, p: PoolView, t: int)
    requires s.Ok() && PoolInv(s.tracks, ToSet(s.nodes), p) && AgendaInv(s, now, queue, p.active)
    requires forall e :: Scheduled(s, e) ==> (e in queue <==> Late(e, t))
    ensures FitsAt(s, t)
  {
    forall v | v in HeldAt(s, t) ensures v in p.active {
      var rows := s.tracks[v];
      assert HasAssign(rows, s.sim) ==> Scheduled(s, AssignAt(First(rows), v));
      assert HasRelease(rows, s.sim) ==> Scheduled(s, ReleaseAt(Last(rows) + EPS, v));
    }
    PoolConservation(s.tracks, ToSet(s.nodes), p);
    NoDupCardinality(s.nodes);
    SubsetCardinality(HeldAt(s, t), p.active);
  }

  lemma SplitOfSchedule(s: Setup, queue: seq<Event>, t: int) returns (k: nat)
    requires QueueFor(s, queue) && AssignsFirst(queue)
    ensures k <= |queue| && forall e :: Scheduled(s, e) ==> (e in queue[k..] <==> Late(e, t))
  {
    k := SplitAt(queue, t);
    assert queue == queue[..k] + queue[k..];
  }

  lemma RunNeedsRoom(s: Setup, queue: seq<Event>)
    requires s.Ok() && QueueFor(s, queue) && AssignsFirst(queue) && After(s, queue, |queue|).Ok?
    ensures FitsAlways(s)
  {
    hide PoolInv, AgendaInv, FitsAt;
    forall t | 0 <= t <= s.sim ensures FitsAt(s, t) {
      var k := SplitOfSchedule(s, queue, t);
      PrefixesAreOk(s, queue, k, |queue|);
      EventsKeepInv(s, queue, k);
      FitWasNeeded(s, TimeAfter(queue, k), queue[k..], After(s, queue, k).value, t);
    }
  }

  /** A schedule in which assignments win ties is worked off if and only if the vehicles always fit. */
  lemma PoolSufficesIff(s: Setup, queue: seq<Event>)
    requires s.Ok() && QueueFor(s, queue) && AssignsFirst(queue)
    ensures After(s, queue, |queue|).Ok? <==> FitsAlways(s)
  {
    hide QueueFor, AssignsFirst, FitsAlways, After;
    if FitsAlways(s) {
      FitIsEnough(s, queue, |queue|);
    }
    if After(s, queue, |queue|).Ok? {
      RunNeedsRoom(s, queue);
    }
  }

  // ----- Every order of ties -----

  function Inserted(queue: seq<Event>, e: Event): seq<Event> {
    if queue == [] then [e]
    else if AtMost(e, queue[0]) then [e] + queue
    else [queue[0]] + Inserted(queue[1..], e)
  }

  lemma {:induction false} InsertedIsOrdered(queue: seq<Event>, e: Event)
    requires AssignsFirst(queue) && NoDup(queue) && e !in queue
    ensures AssignsFirst(Inserted(queue, e)) && NoDup(Inserted(queue, e))
    ensures forall x :: x in Inserted(queue, e) <==> x == e || x in queue
  {
    if queue != [] {
      assert queue == [queue[0]] + queue[1..];
      if !AtMost(e, queue[0]) {
        InsertedIsOrdered(queue[1..], e);
        FrontIsLeast(queue[0], Inserted(queue[1..], e));
      } else {
        FrontIsLeast(e, queue);
      }
    }
  }

  lemma FrontIsLeast(x: Event, rest: seq<Event>)
    requires AssignsFirst(rest) && NoDup(rest) && x !in rest && forall y :: y in rest ==> AtMost(x, y)
    ensures AssignsFirst([x] + rest) && NoDup([x] + rest)
  {
    hide AtMost;
  }

  /** Some arrangement of the schedule lets assignments win every tie. */
  lemma OrderedQueue(s: Setup) returns (queue: seq<Event>)
    requires s.Ok()
    ensures QueueFor(s, queue) && AssignsFirst(queue)
  {
    var events := ScheduleOf(s, |s.ids|);
    ScheduleIsExact(s, |s.ids|);
    assert s.ids[..|s.ids|] == s.ids;
    queue := [];
    for i := 0 to |events|
      invariant AssignsFirst(queue) && NoDup(queue) && forall x :: x in queue <==> x in events[..i]
    {
      assert events[..i + 1] == events[..i] + [events[i]];
      InsertedIsOrdered(queue, events[i]);
      queue := Inserted(queue, events[i]);
    }
    assert events[..|events|] == events;
  }

  ghost predicate WorkedOff(s: Setup, queue: seq<Event>)
    requires s.Ok()
  {
    After(s, queue, |queue|).Ok?
  }

  /**
    On any tracks: no order of the schedule stops the simulator if and only if at every
    moment the vehicles assigned by then and not released before fit the radios.
   */
  lemma EveryOrderSufficesIff(s: Setup)
    requires s.Ok()
    ensures (forall queue :: QueueFor(s, queue) ==> WorkedOff(s, queue)) <==> FitsAlways(s)
  {
    hide QueueFor, AssignsFirst, FitsAlways, After;
    if FitsAlways(s) {
      forall queue | QueueFor(s, queue) ensures WorkedOff(s, queue) {
        FitIsEnough(s, queue, |queue|);
      }
    }
    if forall queue :: QueueFor(s, queue) ==> WorkedOff(s, queue) {
      var queue := OrderedQueue(s);
      assert WorkedOff(s, queue);
      RunNeedsRoom(s, queue);
    }
  }

  // ----- On a common grid -----

  /** On a grid nothing is assigned at the moment of a release. */
  lemma GridHasNoTies(s: Setup, g: int, queue: seq<Event>)
    requires s.Ok() && GridSetup(s, g) && QueueFor(s, queue)
    ensures AssignsFirst(queue)
  {
    forall i, j | 0 <= i < j < |queue| ensures AtMost(queue[i], queue[j]) {
      assert queue[i] in queue && queue[j] in queue;
      var a, b := s.tracks[queue[i].vehicle], s.tracks[queue[j].vehicle];
      FirstAndLast(a);
      FirstAndLast(b);
      if queue[i].time == queue[j].time && queue[i].ReleaseAt? && queue[j].AssignAt? {
        GridGap(Last(a), First(b), g);
      }
    }
  }

  /** At every moment of the run the vehicles with a row there, together with the leaked ones, fit the radios. */
  ghost predicate RoomAlways(s: Setup)
    requires s.Ok()
  {
    forall t :: 0 <= t <= s.sim ==> RoomAt(s, t)
  }

  ghost predicate RoomAt(s: Setup, t: int)
    requires s.Ok()
  {
    |PresentAt(s, t) + Leaked(s)| <= |s.nodes|
  }

  lemma PresentAreHeld(s: Setup, t: int)
    requires s.Ok() && 0 <= t <= s.sim
    ensures PresentAt(s, t) + Leaked(s) <= HeldAt(s, t)
  {
    forall v | v in PresentAt(s, t) + Leaked(s) ensures v in HeldAt(s, t) {
      FirstAndLast(s.tracks[v]);
    }
  }

  /** The last grid time up to `t`. */
  function GridFloor(t: int, g: int): int
    requires g > 0
  {
    t - t % g
  }

  lemma MultiplesAreOrdered(g: int, a: int, b: int)
    requires 0 < g && a <= b
    ensures g * a <= g * b
  {
  }

  lemma MultiplesLeaveNothing(g: int, a: int, b: int, r: int)
    requires 0 <= r < g && g * a == g * b + r
    ensures r == 0
  {
    if a <= b {
      MultiplesAreOrdered(g, a, b);
    } else {
      MultiplesAreOrdered(g, b + 1, a);
    }
  }

  lemma FloorIsMultiple(t: int, g: int)
    requires g > 0 && 0 <= t
    ensures 0 <= GridFloor(t, g) <= t < GridFloor(t, g) + g && GridFloor(t, g) % g == 0
  {
    var f := GridFloor(t, g);
    assert t == g * (t / g) + t % g && f == g * (f / g) + f % g;
    MultiplesLeaveNothing(g, t / g, f / g, f % g);
  }

  lemma FloorOnGrid(t: int, g: int, a: int)
    requires g > 0 && a % g == 0 && 0 <= t
    ensures 0 <= GridFloor(t, g) <= t < GridFloor(t, g) + g && GridFloor(t, g) % g == 0
    ensures a <= t ==> a <= GridFloor(t, g)
    ensures t < a + g ==> GridFloor(t, g) <= a
  {
    var f := GridFloor(t, g);
    FloorIsMultiple(t, g);
    hide GridFloor;
    if f < a <= t {
      GridGap(f, a, g);
    }
    if a < f {
      GridGap(a, f, g);
    }
  }

  lemma HeldHasRow(rows: seq<Row>, sim: int, g: int, t: int)
    requires rows != [] && g > EPS && OnGrid(rows, g) && 0 <= t <= sim && Held(rows, sim, t)
    ensures HasRow(rows, GridFloor(t, g)) || Last(rows) == 0
  {
    FirstAndLast(rows);
    ZeroOnGrid(g);
    GridTolerance(First(rows), 0, g);
    GridTolerance(0, Last(rows), g);
    FloorOnGrid(t, g, First(rows));
    FloorOnGrid(t, g, Last(rows));
  }

  lemma HeldArePresent(s: Setup, g: int, t: int)
    requires s.Ok() && GridSetup(s, g) && 0 <= t <= s.sim
    ensures HeldAt(s, t) <= PresentAt(s, GridFloor(t, g)) + Leaked(s)
  {
    forall v | v in HeldAt(s, t) ensures v in PresentAt(s, GridFloor(t, g)) + Leaked(s) {
      HeldHasRow(s.tracks[v], s.sim, g, t);
    }
  }

  /** On a grid the vehicles always fit if and only if those with a row and the leaked ones do. */
  lemma RoomOnGridIff(s: Setup, g: int)
    requires s.Ok() && GridSetup(s, g)
    ensures FitsAlways(s) <==> RoomAlways(s)
  {
    hide GridFloor, OnGrid;
    if FitsAlways(s) {
      forall t | 0 <= t <= s.sim ensures RoomAt(s, t) {
        assert FitsAt(s, t);
        PresentAreHeld(s, t);
        SubsetCardinality(PresentAt(s, t) + Leaked(s), HeldAt(s, t));
      }
    }
    if RoomAlways(s) {
      forall t | 0 <= t <= s.sim ensures FitsAt(s, t) {
        ZeroOnGrid(g);
        FloorOnGrid(t, g, 0);
        assert RoomAt(s, GridFloor(t, g));
        HeldArePresent(s, g, t);
        SubsetCardinality(HeldAt(s, t), PresentAt(s, GridFloor(t, g)) + Leaked(s));
      }
    }
  }

  /**
    On a grid a run works off its whole schedule, in any order, if and only if at
    every moment the vehicles present and the leaked ones fit the radios.
   */
  lemma PoolSufficesOnGridIff(s: Setup, g: int, queue: seq<Event>)
    requires s.Ok() && GridSetup(s, g) && QueueFor(s, queue)
    ensures After(s, queue, |queue|).Ok? <==> RoomAlways(s)
  {
    hide QueueFor, GridSetup, RoomAlways, FitsAlways, AssignsFirst, After;
    GridHasNoTies(s, g, queue);
    PoolSufficesIff(s, queue);
    RoomOnGridIff(s, g);
  }

  // ----- The sampled peak -----

  /** The promise made to the simulator: the sampled peak fits the pool. */
  ghost predicate PeakFits(s: Setup) {
    forall t :: |PresentAt(s, t)| <= |s.nodes|
  }

  /** A peak that fits leaves room if no track ends exactly at time 0. */
  lemma PeakLeavesRoom(s: Setup)
    requires s.Ok() && PeakFits(s) && forall v :: v in s.ids ==> Last(s.tracks[v]) != 0
    ensures RoomAlways(s)
  {
    forall t ensures PresentAt(s, t) + Leaked(s) == PresentAt(s, t) {
    }
  }

  /** If the sampled peak fits the pool and no track ends at time 0, no prefix of the schedule stops the simulator. */
  lemma PoolNeverExhausted(s: Setup, g: int, queue: seq<Event>, k: nat)
    requires s.Ok() && GridSetup(s, g) && QueueFor(s, queue) && k <= |queue|
    requires PeakFits(s) && forall v :: v in s.ids ==> Last(s.tracks[v]) != 0
    ensures After(s, queue, k).Ok?
  {
    hide QueueFor, GridSetup, RoomAlways, FitsAlways, After;
    PeakLeavesRoom(s);
    RoomOnGridIff(s, g);
    FitIsEnough(s, queue, k);
  }

  lemma NeverTogether(s: Setup, rowsA: seq<Row>, rowsB: seq<Row>, a: Vehicle, b: Vehicle)
    requires s.ids == [a, b] && a != b && s.tracks == map[a := rowsA, b := rowsB] && |s.nodes| == 1
    requires forall t :: !(HasRow(rowsA, t) && HasRow(rowsB, t))
    ensures PeakFits(s)
  {
    forall t ensures |PresentAt(s, t)| <= 1 {
      if HasRow(rowsA, t) {
        SubsetCardinality(PresentAt(s, t), {a});
      } else {
        SubsetCardinality(PresentAt(s, t), {b});
      }
    }
  }

  lemma TwoRows(rows: seq<Row>)
    requires |rows| == 2 && rows[0].time < rows[1].time
    ensures First(rows) == rows[0].time && Last(rows) == rows[1].time
  {
    assert rows[..1] == [rows[0]];
  }

  /** With one radio and a vehicle that starts with it, the next assignment fails. */
  lemma SecondVehicleStops(s: Setup, queue: seq<Event>, a: Vehicle, b: Vehicle)
    requires s.Ok() && s.ids == [a, b] && |s.nodes| == 1 && queue != [] && queue[0].AssignAt? && queue[0].vehicle == b
    requires StartsInitially(s.tracks[a]) && !StartsInitially(s.tracks[b])
    ensures After(s, queue, 1) == Err(PoolExhausted)
  {
    hide StartsInitially;
    assert AssignInitial(s, 1) == Assign(s.tracks, EmptyPool(s.nodes), a);
    assert AssignInitial(s, 2) == AssignInitial(s, 1);
    assert After(s, queue, 0) == AssignInitial(s, 2);
  }

  /** Without the condition on tracks ending at time 0 the promise fails: one radio, peak one, and an exhausted pool. */
  lemma LeakExhaustsPool() returns (s: Setup, queue: seq<Event>)
    ensures s.Ok() && QueueFor(s, queue) && |s.nodes| == 1
    ensures PeakFits(s)
    ensures |queue| == 2 && After(s, queue, 1) == Err(PoolExhausted)
  {
    var a, b := Vehicle(1), Vehicle(2);
    var tick := 100_000_000;
    var rowsA, rowsB := [Row(0, 0.0, 0.0, 0.0, 0.0)], [Row(tick, 0.0, 0.0, 0.0, 0.0)];
    s := Setup(map[a := rowsA, b := rowsB], [a, b], 10 * tick, [Node(0)]);
    queue := [AssignAt(tick, b), ReleaseAt(tick + EPS, b)];
    assert First(rowsA) == 0 == Last(rowsA) && First(rowsB) == tick == Last(rowsB);
    NeverTogether(s, rowsA, rowsB, a, b);
    hide HasRow, PeakFits;
    forall e ensures e in queue <==> Scheduled(s, e) {
    }
    SecondVehicleStops(s, queue, a, b);
  }

  /** A gap in a track hides it from the peak: both conditions on the grid hold, and the first event finds no radio. */
  lemma GapExhaustsPool() returns (s: Setup, queue: seq<Event>)
    ensures s.Ok() && QueueFor(s, queue) && |s.nodes| == 1
    ensures PeakFits(s) && RoomAlways(s) && forall v :: v in s.ids ==> Last(s.tracks[v]) != 0
    ensures |queue| == 3 && After(s, queue, 1) == Err(PoolExhausted)
  {
    var a, b := Vehicle(1), Vehicle(2);
    var tick := 100_000_000;
    var rowsA := [Row(0, 0.0, 0.0, 0.0, 0.0), Row(2 * tick, 0.0, 0.0, 0.0, 0.0)];
    var rowsB := [Row(tick, 0.0, 0.0, 0.0, 0.0)];
    s := Setup(map[a := rowsA, b := rowsB], [a, b], 10 * tick, [Node(0)]);
    queue := [AssignAt(tick, b), ReleaseAt(tick + EPS, b), ReleaseAt(2 * tick + EPS, a)];
    TwoRows(rowsA);
    assert First(rowsB) == tick == Last(rowsB);
    NeverTogether(s, rowsA, rowsB, a, b);
    PeakLeavesRoom(s);
    hide HasRow, PeakFits, RoomAlways;
    forall e ensures e in queue <==> Scheduled(s, e) {
    }
    SecondVehicleStops(s, queue, a, b);
  }
}
