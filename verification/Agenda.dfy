/**
  Running the schedule: what is lent at every moment, and why a run can only
  stop for want of a radio.
 */
module Agenda {
  import opened Prelude
  import opened Mobility
  import opened Pool
  import opened Schedule

  ghost predicate TimeOrdered(queue: seq<Event>) {
    forall i, j :: 0 <= i < j < |queue| ==> queue[i].time <= queue[j].time
  }

  /** Any time-ordered arrangement of the scheduled events; ties may fall either way. */
  ghost predicate QueueFor(s: Setup, queue: seq<Event>) {
    && NoDup(queue) && TimeOrdered(queue)
    && (forall e :: e in queue <==> Scheduled(s, e))
  }

  function Fire(tracks: Tracks, p: PoolView, e: Event): Result<PoolView, Abort> {
    match e
    case AssignAt(_, v) => Assign(tracks, p, v)
    case ReleaseAt(_, v) => Ok(Release(p, v))
  }

  /** The pool after the initial assignment and the first `k` events. */
  function After(s: Setup, queue: seq<Event>, k: nat): Result<PoolView, Abort>
    requires k <= |queue| && forall v :: v in s.ids ==> v in s.tracks && s.tracks[v] != []
  {
    if k == 0 then AssignInitial(s, |s.ids|)
    else
      match After(s, queue, k - 1)
      case Ok(p) => Fire(s.tracks, p, queue[k - 1])
      case Err(e) => Err(e)
  }

  // ----- What is lent while a queue is being worked off -----

  /** `v` has been assigned, initially or by an event already fired, and not yet released. */
  ghost predicate Lent(s: Setup, queue: seq<Event>, v: Vehicle)
    requires v in s.tracks && s.tracks[v] != []
  {
    var rows := s.tracks[v];
    && (StartsInitially(rows) || (HasAssign(rows, s.sim) && AssignAt(First(rows), v) !in queue))
    && !(HasRelease(rows, s.sim) && ReleaseAt(Last(rows) + EPS, v) !in queue)
  }

  /** `queue` holds exactly the scheduled events still to come at `now`, and `active` the vehicles lent a radio. */
  ghost predicate AgendaInv(s: Setup, now: int, queue: seq<Event>, active: set<Vehicle>)
    requires s.Ok()
  {
    && NoDup(queue) && TimeOrdered(queue)
    && (forall e :: e in queue ==> Scheduled(s, e) && now <= e.time)
    && (forall e :: Scheduled(s, e) && e !in queue ==> e.time <= now)
    && (forall v :: v in active ==> v in s.ids)
    && (forall v :: v in s.ids ==> (v in active <==> Lent(s, queue, v)))
  }

  lemma {:induction false} InitialActive(s: Setup, k: nat)
    requires s.Ok() && k <= |s.ids| && AssignInitial(s, k).Ok?
    ensures PoolInv(s.tracks, ToSet(s.nodes), AssignInitial(s, k).value)
    ensures forall v :: v in AssignInitial(s, k).value.active <==> v in s.ids[..k] && StartsInitially(s.tracks[v])
  {
    hide PoolInv, StartsInitially;
    if k == 0 {
      EmptyPoolInv(s.tracks, s.nodes);
    } else {
      InitialActive(s, k - 1);
      var v := s.ids[k - 1];
      assert v in s.ids && s.ids[..k] == s.ids[..k - 1] + [v];
      if StartsInitially(s.tracks[v]) {
        AssignKeepsInv(s.tracks, ToSet(s.nodes), AssignInitial(s, k - 1).value, v);
      }
    }
  }

  lemma AgendaStarts(s: Setup, queue: seq<Event>)
    requires s.Ok() && QueueFor(s, queue) && AssignInitial(s, |s.ids|).Ok?
    ensures PoolInv(s.tracks, ToSet(s.nodes), AssignInitial(s, |s.ids|).value)
    ensures AgendaInv(s, 0, queue, AssignInitial(s, |s.ids|).value.active)
  {
    InitialActive(s, |s.ids|);
    assert s.ids[..|s.ids|] == s.ids;
    forall v | v in s.ids ensures StartsInitially(s.tracks[v]) <==> Lent(s, queue, v) {
      var rows := s.tracks[v];
      assert HasAssign(rows, s.sim) ==> Scheduled(s, AssignAt(First(rows), v));
      assert HasRelease(rows, s.sim) ==> Scheduled(s, ReleaseAt(Last(rows) + EPS, v));
    }
  }

  lemma AgendaWaits(s: Setup, now: int, queue: seq<Event>, active: set<Vehicle>, t: int)
    requires s.Ok() && AgendaInv(s, now, queue, active) && now <= t && (queue == [] || t <= queue[0].time)
    ensures AgendaInv(s, t, queue, active)
  {
    forall e | e in queue ensures t <= e.time {
      var i :| 0 <= i < |queue| && queue[i] == e;
    }
  }

  lemma TailMembers(queue: seq<Event>)
    requires NoDup(queue) && TimeOrdered(queue) && queue != []
    ensures NoDup(queue[1..]) && TimeOrdered(queue[1..])
    ensures forall e :: e in queue[1..] <==> e in queue && e != queue[0]
    ensures forall e :: e in queue[1..] ==> queue[0].time <= e.time
  {
    assert queue == [queue[0]] + queue[1..];
  }

  /** A vehicle whose assignment is next is not lent a radio, and its release is still to come. */
  lemma NotYetAssigned(s: Setup, now: int, queue: seq<Event>, active: set<Vehicle>)
    requires s.Ok() && AgendaInv(s, now, queue, active) && queue != [] && queue[0].AssignAt?
    ensures queue[0].vehicle !in active
    ensures var v := queue[0].vehicle; var rows := s.tracks[v];
      HasRelease(rows, s.sim) ==> ReleaseAt(Last(rows) + EPS, v) in queue[1..]
  {
    var v := queue[0].vehicle;
    var rows := s.tracks[v];
    assert queue[0] in queue && queue[0] == AssignAt(First(rows), v);
    FirstAndLast(rows);
    TailMembers(queue);
    if HasRelease(rows, s.sim) {
      assert Scheduled(s, ReleaseAt(Last(rows) + EPS, v));
    }
  }

  function ActiveAfter(active: set<Vehicle>, e: Event): set<Vehicle> {
    match e
    case AssignAt(_, v) => active + {v}
    case ReleaseAt(_, v) => active - {v}
  }

  lemma AgendaFires(s: Setup, now: int, queue: seq<Event>, active: set<Vehicle>)
    requires s.Ok() && AgendaInv(s, now, queue, active) && queue != []
    ensures AgendaInv(s, queue[0].time, queue[1..], ActiveAfter(active, queue[0]))
  {
    var e, rest := queue[0], queue[1..];
    assert e in queue;
    TailMembers(queue);
    if e.AssignAt? {
      NotYetAssigned(s, now, queue, active);
    }
    var active' := ActiveAfter(active, e);
    forall v | v in s.ids ensures v in active' <==> Lent(s, rest, v) {
      if v != e.vehicle {
        assert Lent(s, rest, v) <==> Lent(s, queue, v);
      }
    }
  }

  /** Of all the reasons to stop, a run can only ever meet an exhausted pool. */
  lemma OnlyExhaustionAborts(s: Setup, now: int, queue: seq<Event>, p: PoolView)
    requires s.Ok() && PoolInv(s.tracks, ToSet(s.nodes), p) && AgendaInv(s, now, queue, p.active) && queue != []
    ensures Fire(s.tracks, p, queue[0]).Ok? <==> queue[0].ReleaseAt? || p.free != []
    ensures Fire(s.tracks, p, queue[0]).Err? ==> Fire(s.tracks, p, queue[0]).error == PoolExhausted
  {
    assert queue[0] in queue;
    if queue[0].AssignAt? {
      NotYetAssigned(s, now, queue, p.active);
      MobilityIsNeverMissing(s.tracks, ToSet(s.nodes), p, queue[0].vehicle);
    }
  }

  lemma FireKeepsInv(s: Setup, now: int, queue: seq<Event>, p: PoolView)
    requires s.Ok() && PoolInv(s.tracks, ToSet(s.nodes), p) && AgendaInv(s, now, queue, p.active)
    requires queue != [] && Fire(s.tracks, p, queue[0]).Ok?
    ensures var q := Fire(s.tracks, p, queue[0]).value;
      PoolInv(s.tracks, ToSet(s.nodes), q) && AgendaInv(s, queue[0].time, queue[1..], q.active)
  {
    var v := queue[0].vehicle;
    AgendaFires(s, now, queue, p.active);
    match queue[0]
    case AssignAt(_, _) => AssignKeepsInv(s.tracks, ToSet(s.nodes), p, v);
    case ReleaseAt(_, _) =>
      ReleaseKeepsInv(s.tracks, ToSet(s.nodes), p, v);
      assert Release(p, v).active == p.active - {v};
  }

  /** The moment at which the first `k` events have fired. */
  function TimeAfter(queue: seq<Event>, k: nat): int
    requires k <= |queue|
  {
    if k == 0 then 0 else queue[k - 1].time
  }

  /** As long as nothing stops the simulator, pool and agenda are in order. */
  lemma {:induction false} EventsKeepInv(s: Setup, queue: seq<Event>, k: nat)
    requires s.Ok() && QueueFor(s, queue) && k <= |queue| && After(s, queue, k).Ok?
    ensures PoolInv(s.tracks, ToSet(s.nodes), After(s, queue, k).value)
    ensures AgendaInv(s, TimeAfter(queue, k), queue[k..], After(s, queue, k).value.active)
  {
    hide PoolInv, AgendaInv, QueueFor;
    if k == 0 {
      AgendaStarts(s, queue);
      assert queue[0..] == queue;
    } else {
      EventsKeepInv(s, queue, k - 1);
      FireKeepsInv(s, TimeAfter(queue, k - 1), queue[k - 1..], After(s, queue, k - 1).value);
      assert queue[k - 1..][1..] == queue[k..];
    }
  }

  lemma {:induction false} PrefixesAreOk(s: Setup, queue: seq<Event>, j: nat, k: nat)
    requires s.Ok() && j <= k <= |queue| && After(s, queue, k).Ok?
    ensures After(s, queue, j).Ok?
  {
    if j < k {
      PrefixesAreOk(s, queue, j, k - 1);
    }
  }

  // ----- Tracks on a common grid -----

  /** Row times are multiples of `g` without gaps, and the grid is coarser than the assignment tolerance. */
  ghost predicate OnGrid(rows: seq<Row>, g: int)
    requires g > 0 && rows != []
  {
    && (forall t :: HasRow(rows, t) ==> t % g == 0)
    && (forall t :: First(rows) <= t <= Last(rows) && t % g == 0 ==> HasRow(rows, t))
  }

  ghost predicate GridSetup(s: Setup, g: int)
    requires s.Ok()
  {
    g > EPS && forall v :: v in s.ids ==> OnGrid(s.tracks[v], g)
  }

  /** Different multiples of `g` are at least `g` apart. */
  lemma GridGap(a: int, b: int, g: int)
    requires g > 0 && a % g == 0 && b % g == 0 && a < b
    ensures a + g <= b
  {
    var i, j := a / g, b / g;
    assert a == g * i && b == g * j;
    assert i < j;
    assert g * (i + 1) <= g * j;
  }

  /** With tracks on a grid the tolerance makes no difference: a grid time within it is not later. */
  lemma GridTolerance(a: int, b: int, g: int)
    requires g > EPS && a % g == 0 && b % g == 0
    ensures a <= b + EPS <==> a <= b
  {
    if b < a {
      GridGap(b, a, g);
    }
  }

  lemma ZeroOnGrid(g: int)
    requires g > 0
    ensures 0 % g == 0
  {
  }

  // ----- The exact set of active vehicles -----

  ghost function Expected(s: Setup, t: int): set<Vehicle>
    requires s.Ok()
  {
    set v | v in s.ids && First(s.tracks[v]) <= t < Last(s.tracks[v]) + EPS
  }

  /** Tracks that end exactly at time 0 are assigned initially but never scheduled for release. */
  ghost function Leaked(s: Setup): set<Vehicle>
    requires s.Ok()
  {
    set v | v in s.ids && Last(s.tracks[v]) == 0
  }

  /** Once all events up to `t` have fired, the active vehicles are those whose track covers `t`, plus the leaked ones. */
  lemma ActiveSetIsExact(s: Setup, g: int, now: int, queue: seq<Event>, active: set<Vehicle>, t: int)
    requires s.Ok() && GridSetup(s, g) && AgendaInv(s, now, queue, active)
    requires 0 <= t <= s.sim && now <= t && forall e :: e in queue ==> t < e.time
    ensures active == Expected(s, t) + Leaked(s)
  {
    forall v | v in s.ids ensures v in active <==> v in Expected(s, t) + Leaked(s) {
      var rows := s.tracks[v];
      var assign, release := AssignAt(First(rows), v), ReleaseAt(Last(rows) + EPS, v);
      FirstAndLast(rows);
      ZeroOnGrid(g);
      GridTolerance(First(rows), 0, g);
      GridTolerance(0, Last(rows), g);
      assert HasAssign(rows, s.sim) ==> Scheduled(s, assign);
      assert HasRelease(rows, s.sim) ==> Scheduled(s, release);
    }
  }

  /** The active set is exactly the tracks that cover `t` if and only if no track ends exactly at time 0. */
  lemma ActiveSetIsExpectedIff(s: Setup, g: int, now: int, queue: seq<Event>, active: set<Vehicle>, t: int)
    requires s.Ok() && GridSetup(s, g) && AgendaInv(s, now, queue, active)
    requires EPS <= t <= s.sim && now <= t && forall e :: e in queue ==> t < e.time
    ensures active == Expected(s, t) <==> forall v :: v in s.ids ==> Last(s.tracks[v]) != 0
  {
    ActiveSetIsExact(s, g, now, queue, active, t);
    assert Expected(s, t) !! Leaked(s);
    if v :| v in s.ids && Last(s.tracks[v]) == 0 {
      assert v in Leaked(s);
    }
  }
}
