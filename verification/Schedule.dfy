/**
  When vehicles are lent a radio: the initial assignment, the event schedule,
  and the sampled peak count that is meant to guarantee enough radios.
  Times are integer nanoseconds; the simulation starts at time 0.
 */
module Schedule {
  import opened Prelude
  import opened Mobility
  import opened Pool
  import opened Radios

  /** Assignment tolerance: one microsecond. */
  const EPS: int := 1000

  // ----- Time range of one track -----

  function First(rows: seq<Row>): int
    requires rows != []
  {
    var t := rows[|rows| - 1].time;
    if |rows| == 1 || t < First(rows[..|rows| - 1]) then t else First(rows[..|rows| - 1])
  }

  function Last(rows: seq<Row>): int
    requires rows != []
  {
    var t := rows[|rows| - 1].time;
    if |rows| == 1 || t > Last(rows[..|rows| - 1]) then t else Last(rows[..|rows| - 1])
  }

  predicate HasRow(rows: seq<Row>, t: int) {
    exists i :: 0 <= i < |rows| && rows[i].time == t
  }

  /** First and Last are the least and the greatest row time. */
  lemma {:induction false} FirstAndLast(rows: seq<Row>)
    requires rows != []
    ensures HasRow(rows, First(rows)) && HasRow(rows, Last(rows))
    ensures forall t :: HasRow(rows, t) ==> First(rows) <= t <= Last(rows)
  {
    var last := |rows| - 1;
    assert rows == rows[..last] + [rows[last]] && rows[..last + 1] == rows;
    forall t ensures HasRow(rows, t) <==> HasRow(rows[..last], t) || t == rows[last].time {
      HasRowSnoc(rows, last, t);
    }
    if last > 0 {
      FirstAndLast(rows[..last]);
    }
  }

  lemma HasRowSnoc(rows: seq<Row>, i: nat, t: int)
    requires i < |rows|
    ensures HasRow(rows[..i + 1], t) <==> HasRow(rows[..i], t) || t == rows[i].time
  {
    assert rows[..i + 1][i].time == rows[i].time;
    if HasRow(rows[..i], t) {
      var j :| 0 <= j < i && rows[..i][j].time == t;
      assert rows[..i + 1][j].time == t;
    }
  }

  /** The first and last time of a track; None where the simulator stops on an empty track. */
  method ComputeMobilityTimeRange(rows: seq<Row>) returns (range: Option<(int, int)>)
    ensures range == if rows == [] then None else Some((First(rows), Last(rows)))
  {
    range := None;
    for i := 0 to |rows|
      invariant range == if i == 0 then None else Some((First(rows[..i]), Last(rows[..i])))
    {
      var t := rows[i].time;
      assert rows[..i + 1][..i] == rows[..i];
      range := match range
        case None => Some((t, t))
        case Some((lo, hi)) => Some((if t < lo then t else lo, if t > hi then t else hi));
    }
    assert rows[..|rows|] == rows;
  }

  // ----- The schedule -----

  /** `ids` are the selected vehicles, `sim` the end of the simulation, `nodes` the radios. */
  datatype Setup = Setup(tracks: Tracks, ids: seq<Vehicle>, sim: int, nodes: seq<Node>) {
    ghost predicate Ok() {
      && NoDup(ids) && NoDup(nodes) && 0 <= sim
      && (forall v :: v in ids ==> v in tracks && tracks[v] != [])
    }
  }

  datatype Event = AssignAt(time: int, vehicle: Vehicle) | ReleaseAt(time: int, vehicle: Vehicle)

  predicate StartsInitially(rows: seq<Row>)
    requires rows != []
  {
    First(rows) <= EPS && Last(rows) + EPS >= 0
  }

  predicate HasAssign(rows: seq<Row>, sim: int)
    requires rows != []
  {
    First(rows) > EPS && First(rows) <= sim
  }

  predicate HasRelease(rows: seq<Row>, sim: int)
    requires rows != []
  {
    Last(rows) + EPS > EPS && Last(rows) + EPS <= sim
  }

  function EventsOf(rows: seq<Row>, v: Vehicle, sim: int): seq<Event>
    requires rows != []
  {
    (if HasAssign(rows, sim) then [AssignAt(First(rows), v)] else [])
    + (if HasRelease(rows, sim) then [ReleaseAt(Last(rows) + EPS, v)] else [])
  }

  function ScheduleOf(s: Setup, k: nat): seq<Event>
    requires k <= |s.ids| && forall v :: v in s.ids ==> v in s.tracks && s.tracks[v] != []
  {
    if k == 0 then [] else ScheduleOf(s, k - 1) + EventsOf(s.tracks[s.ids[k - 1]], s.ids[k - 1], s.sim)
  }

  method ScheduleDynamicPoolAssignments(s: Setup) returns (events: seq<Event>)
    requires s.Ok()
    ensures events == ScheduleOf(s, |s.ids|)
    ensures forall e :: e in events <==> Scheduled(s, e)
    ensures NoDup(events)
  {
    events := [];
    for k := 0 to |s.ids|
      invariant events == ScheduleOf(s, k)
    {
      var v := s.ids[k];
      assert v in s.ids;
      var range := ComputeMobilityTimeRange(s.tracks[v]);
      var own := [];
      if range.value.0 > EPS && range.value.0 <= s.sim {
        own := own + [AssignAt(range.value.0, v)];
      }
      var releaseTime := range.value.1 + EPS;
      if releaseTime > EPS && releaseTime <= s.sim {
        own := own + [ReleaseAt(releaseTime, v)];
      }
      assert own == EventsOf(s.tracks[v], v, s.sim);
      events := events + own;
    }
    ScheduleIsExact(s, |s.ids|);
    assert s.ids[..|s.ids|] == s.ids;
  }

  /** The events the schedule must hold. */
  ghost predicate Scheduled(s: Setup, e: Event) {
    && e.vehicle in s.ids && e.vehicle in s.tracks && s.tracks[e.vehicle] != []
    && Due(s.tracks[e.vehicle], s.sim, e)
  }

  ghost predicate Due(rows: seq<Row>, sim: int, e: Event)
    requires rows != []
  {
    match e
    case AssignAt(t, _) => HasAssign(rows, sim) && t == First(rows)
    case ReleaseAt(t, _) => HasRelease(rows, sim) && t == Last(rows) + EPS
  }

  lemma EventsOfExact(rows: seq<Row>, v: Vehicle, sim: int)
    requires rows != []
    ensures forall e :: e in EventsOf(rows, v, sim) <==> e.vehicle == v && Due(rows, sim, e)
    ensures NoDup(EventsOf(rows, v, sim))
  {
  }

  lemma FreshId(s: Setup, k: nat)
    requires s.Ok() && 0 < k <= |s.ids|
    ensures s.ids[k - 1] in s.ids && s.ids[k - 1] !in s.ids[..k - 1]
    ensures s.ids[..k] == s.ids[..k - 1] + [s.ids[k - 1]]
  {
  }

  /** The schedule holds each vehicle's assignment and release at most once, and nothing else. */
  lemma {:induction false} ScheduleIsExact(s: Setup, k: nat)
    requires s.Ok() && k <= |s.ids|
    ensures forall e :: e in ScheduleOf(s, k) <==> Scheduled(s, e) && e.vehicle in s.ids[..k]
    ensures NoDup(ScheduleOf(s, k))
  {
    assert NoDup(ScheduleOf(s, 0));
    hide NoDup, EventsOf, Due;
    if k > 0 {
      ScheduleIsExact(s, k - 1);
      FreshId(s, k);
      var v := s.ids[k - 1];
      var before, own := ScheduleOf(s, k - 1), EventsOf(s.tracks[v], v, s.sim);
      EventsOfExact(s.tracks[v], v, s.sim);
      NoDupJoin(before, own);
      forall e ensures e in before + own <==> Scheduled(s, e) && e.vehicle in s.ids[..k] {
        assert e in before + own <==> e in before || e in own;
        assert e.vehicle in s.ids[..k] <==> e.vehicle in s.ids[..k - 1] || e.vehicle == v;
      }
    }
  }

  /** Initial assignment: vehicles whose track covers time 0, in id order. */
  function AssignInitial(s: Setup, k: nat): Result<PoolView, Abort>
    requires k <= |s.ids| && forall v :: v in s.ids ==> v in s.tracks && s.tracks[v] != []
  {
    if k == 0 then Ok(EmptyPool(s.nodes))
    else
      var r := AssignInitial(s, k - 1);
      var v := s.ids[k - 1];
      if r.Ok? && StartsInitially(s.tracks[v]) then Assign(s.tracks, r.value, v) else r
  }

  method AssignInitialDynamicPoolVehicles(s: Setup, pool: VehiclePool) returns (abort: Option<Abort>)
    requires s.Ok() && pool.Valid() && pool.tracks == s.tracks && pool.View() == EmptyPool(s.nodes)
    modifies pool, pool.mobility.Values, pool.apps.Values
    ensures abort == match AssignInitial(s, |s.ids|) case Ok(_) => None case Err(e) => Some(e)
    ensures abort == None ==> pool.Valid() && pool.View() == AssignInitial(s, |s.ids|).value
  {
    for k := 0 to |s.ids|
      invariant pool.mobility == old(pool.mobility) && pool.apps == old(pool.apps)
      invariant pool.Valid() && AssignInitial(s, k) == Ok(pool.View())
    {
      abort := AssignIfPresent(s, k, pool);
      if abort.Some? {
        AssignInitialStops(s, k + 1, |s.ids|);
        return;
      }
    }
    abort := None;
  }

  method AssignIfPresent(s: Setup, k: nat, pool: VehiclePool) returns (abort: Option<Abort>)
    requires s.Ok() && k < |s.ids| && pool.Valid() && pool.tracks == s.tracks && AssignInitial(s, k) == Ok(pool.View())
    modifies pool, pool.mobility.Values, pool.apps.Values
    ensures pool.mobility == old(pool.mobility) && pool.apps == old(pool.apps)
    ensures abort == match AssignInitial(s, k + 1) case Ok(_) => None case Err(e) => Some(e)
    ensures abort == None ==> pool.Valid() && AssignInitial(s, k + 1) == Ok(pool.View())
  {
    abort := None;
    var v := s.ids[k];
    assert v in s.ids;
    var range := ComputeMobilityTimeRange(s.tracks[v]);
    if range.value.0 <= EPS && range.value.1 + EPS >= 0 {
      abort := pool.AssignVehicleToPool(v);
    }
  }

  lemma {:induction false} AssignInitialStops(s: Setup, j: nat, k: nat)
    requires s.Ok() && j <= k <= |s.ids| && AssignInitial(s, j).Err?
    ensures AssignInitial(s, k) == AssignInitial(s, j)
  {
    if j < k {
      AssignInitialStops(s, j, k - 1);
    }
  }

  /** How many of the first `k` vehicles are on the road at the start. */
  function StartingAmong(s: Setup, k: nat): (n: nat)
    requires k <= |s.ids| && forall v :: v in s.ids ==> v in s.tracks && s.tracks[v] != []
    ensures n <= k
  {
    if k == 0 then 0
    else
      var rows := s.tracks[s.ids[k - 1]];
      StartingAmong(s, k - 1) + if First(rows) <= EPS && -EPS <= Last(rows) then 1 else 0
  }

  /** The vehicles on the road at the start get the radios one after the other, in the order of the vehicles. */
  lemma {:induction false} InitialRadios(s: Setup, k: nat)
    requires s.Ok() && k <= |s.ids| && AssignInitial(s, k).Ok?
    ensures StartingAmong(s, k) <= |s.nodes| && AssignInitial(s, k).value.free == s.nodes[StartingAmong(s, k)..]
    ensures forall i :: 0 <= i < k && First(s.tracks[s.ids[i]]) <= EPS && -EPS <= Last(s.tracks[s.ids[i]]) ==>
        && StartingAmong(s, i) < |s.nodes|
        && Maps(AssignInitial(s, k).value.vehicleToNode, s.ids[i], s.nodes[StartingAmong(s, i)])
  {
    if k > 0 {
      InitialRadios(s, k - 1);
      assert s.ids[k - 1] in s.ids;
      hide First, Last, NoDup;
      assert forall i :: 0 <= i < k - 1 ==> s.ids[i] != s.ids[k - 1] by { FreshBefore(s, k); }
    }
  }

  lemma FreshBefore(s: Setup, k: nat)
    requires s.Ok() && 0 < k <= |s.ids|
    ensures forall i :: 0 <= i < k - 1 ==> s.ids[i] != s.ids[k - 1]
  {
  }

  // ----- The sampled peak -----

  ghost function PresentAt(s: Setup, t: int): set<Vehicle> {
    PresentAmong(s, s.ids, t)
  }

  ghost function PresentAmong(s: Setup, ids: seq<Vehicle>, t: int): set<Vehicle> {
    set v | v in ids && v in s.tracks && HasRow(s.tracks[v], t)
  }

  /** Peak number of vehicles that share a row time. */
  method ComputePeakActiveCount(s: Setup) returns (peak: nat)
    ensures forall t :: |PresentAt(s, t)| <= peak
    ensures peak > 0 ==> exists t :: |PresentAt(s, t)| == peak
  {
    var buckets: seq<Bucket> := [];
    for k := 0 to |s.ids|
      invariant Distinct(buckets)
      invariant forall t :: Members(buckets, t) == PresentAmong(s, s.ids[..k], t)
    {
      var v := s.ids[k];
      assert s.ids[..k + 1] == s.ids[..k] + [v];
      if v in s.tracks {
        buckets := AddRows(buckets, s.tracks[v], v);
      }
    }
    assert s.ids[..|s.ids|] == s.ids;
    peak := 0;
    for i := 0 to |buckets|
      invariant forall j :: 0 <= j < i ==> |buckets[j].vehicles| <= peak
      invariant peak > 0 ==> exists j :: 0 <= j < i && |buckets[j].vehicles| == peak
    {
      if |buckets[i].vehicles| > peak {
        peak := |buckets[i].vehicles|;
      }
    }
    forall t ensures |PresentAt(s, t)| <= peak {
      assert Members(buckets, t) == PresentAt(s, t);
      MembersIsBucket(buckets, t);
    }
    if peak > 0 {
      var j :| 0 <= j < |buckets| && |buckets[j].vehicles| == peak;
      BucketIsMembers(buckets, j);
      assert Members(buckets, buckets[j].time) == PresentAt(s, buckets[j].time);
    }
  }

  /** The vehicles seen at one row time. */
  datatype Bucket = Bucket(time: int, vehicles: set<Vehicle>)

  ghost predicate Distinct(buckets: seq<Bucket>) {
    forall i, j :: 0 <= i < j < |buckets| ==> buckets[i].time != buckets[j].time
  }

  function Members(buckets: seq<Bucket>, t: int): set<Vehicle> {
    if buckets == [] then {}
    else if buckets[0].time == t then buckets[0].vehicles
    else Members(buckets[1..], t)
  }

  /** Insert a vehicle at a time, as updating a map from times to sets does. */
  function Insert(buckets: seq<Bucket>, t: int, v: Vehicle): (r: seq<Bucket>)
    ensures forall u :: Members(r, u) == Members(buckets, u) + (if u == t then {v} else {})
    ensures forall i :: 0 <= i < |r| ==> r[i].time == t || exists j :: 0 <= j < |buckets| && buckets[j].time == r[i].time
    ensures Distinct(buckets) ==> Distinct(r)
  {
    if buckets == [] then [Bucket(t, {v})]
    else if buckets[0].time == t then [Bucket(t, buckets[0].vehicles + {v})] + buckets[1..]
    else [buckets[0]] + Insert(buckets[1..], t, v)
  }

  method AddRows(buckets: seq<Bucket>, rows: seq<Row>, v: Vehicle) returns (r: seq<Bucket>)
    requires Distinct(buckets)
    ensures Distinct(r)
    ensures forall t :: Members(r, t) == Members(buckets, t) + (if HasRow(rows, t) then {v} else {})
  {
    r := buckets;
    for i := 0 to |rows|
      invariant Distinct(r)
      invariant forall t :: Members(r, t) == Members(buckets, t) + (if HasRow(rows[..i], t) then {v} else {})
    {
      r := Insert(r, rows[i].time, v);
      forall t ensures HasRow(rows[..i + 1], t) <==> HasRow(rows[..i], t) || t == rows[i].time {
        HasRowSnoc(rows, i, t);
      }
    }
    assert rows[..|rows|] == rows;
  }

  lemma {:induction false} MembersIsBucket(buckets: seq<Bucket>, t: int)
    ensures Members(buckets, t) == {} || exists j :: 0 <= j < |buckets| && buckets[j].vehicles == Members(buckets, t)
  {
    if buckets != [] {
      MembersIsBucket(buckets[1..], t);
      if buckets[0].time != t && Members(buckets, t) != {} {
        var j :| 0 <= j < |buckets| - 1 && buckets[1..][j].vehicles == Members(buckets, t);
        assert buckets[j + 1].vehicles == Members(buckets, t);
      }
    }
  }

  lemma {:induction false} BucketIsMembers(buckets: seq<Bucket>, j: nat)
    requires Distinct(buckets) && j < |buckets|
    ensures Members(buckets, buckets[j].time) == buckets[j].vehicles
  {
    if j > 0 {
      BucketIsMembers(buckets[1..], j - 1);
    }
  }
}
