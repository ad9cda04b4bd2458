/**
  The mobility model lent to a pooled radio: linear interpolation along a
  vehicle's track, with a cached row index that moves with the queries.
 */
module Mobility {
  import opened Prelude

  /** Logical vehicles of the trajectory data. */
  datatype Vehicle = Vehicle(id: nat)

  datatype Row = Row(time: int, x: real, y: real, vx: real, vy: real)

  datatype Vec = Vec(x: real, y: real)

  ghost predicate SortedByTime(rows: seq<Row>) {
    forall i, j :: 0 <= i < j < |rows| ==> rows[i].time <= rows[j].time
  }

  // ----- Reference: a fresh search for every query -----

  /** Index of the last row that is not later than `t`. */
  function LastAtOrBefore(rows: seq<Row>, t: int): (i: nat)
    requires |rows| > 0 && rows[0].time <= t
    ensures i < |rows| && rows[i].time <= t
    ensures forall j :: i < j < |rows| ==> t < rows[j].time
  {
    if rows[|rows| - 1].time <= t then |rows| - 1 else LastAtOrBefore(rows[..|rows| - 1], t)
  }

  function RowPosition(r: Row): Vec { Vec(r.x, r.y) }

  function RowVelocity(r: Row): Vec { Vec(r.vx, r.vy) }

  function Mix(a: real, b: real, alpha: real): real {
    a + alpha * (b - a)
  }

  function Blend(a: Vec, b: Vec, alpha: real): Vec {
    Vec(Mix(a.x, b.x, alpha), Mix(a.y, b.y, alpha))
  }

  /** How far `t` is along the step from `from` to `to`. */
  function Fraction(t: int, from: int, to: int): (alpha: real)
    requires from <= t < to
    ensures 0.0 <= alpha < 1.0
  {
    (t - from) as real / (to - from) as real
  }

  /** Linear interpolation of a row attribute at time `t`, held constant outside the track. */
  function At(rows: seq<Row>, t: int, attribute: Row -> Vec): Vec
    requires |rows| > 0 && SortedByTime(rows)
  {
    if t <= rows[0].time then attribute(rows[0])
    else if rows[|rows| - 1].time <= t then attribute(rows[|rows| - 1])
    else
      var i := LastAtOrBefore(rows, t);
      var a, b := rows[i], rows[i + 1];
      Blend(attribute(a), attribute(b), Fraction(t, a.time, b.time))
  }

  /** Where the cached index is after a query at `t`: queries outside the track leave it alone. */
  function IndexAfter(rows: seq<Row>, index: nat, t: int): (i: nat)
    requires |rows| > 0 && index < |rows|
    ensures i < |rows|
    ensures rows[0].time < t < rows[|rows| - 1].time ==> rows[i].time <= t && forall j :: i < j < |rows| ==> t < rows[j].time
  {
    if t <= rows[0].time || rows[|rows| - 1].time <= t then index else LastAtOrBefore(rows, t)
  }

  function Distance(a: nat, b: nat): nat {
    if a <= b then b - a else a - b
  }

  // ----- The cached model -----

  /** Move a row index forward, then backward, until it starts the bracket of `t`. */
  method Walk(track: seq<Row>, start: nat, t: int) returns (index: nat, ghost moves: nat)
    requires SortedByTime(track) && start < |track| && track[0].time < t < track[|track| - 1].time
    ensures index == LastAtOrBefore(track, t)
    ensures moves == Distance(start, index)
  {
    index, moves := start, 0;
    while index + 1 < |track| && track[index + 1].time <= t
      invariant index < |track| && index == start + moves
      invariant moves > 0 ==> track[index].time <= t
      decreases |track| - index
    {
      index, moves := index + 1, moves + 1;
    }
    ghost var top := index;
    while index > 0 && track[index].time > t
      invariant index <= top < |track|
      invariant index + 1 < |track| ==> t < track[index + 1].time
      invariant if index == top then moves == top - start else top == start && moves == start - index
    {
      index, moves := index - 1, moves + 1;
    }
    BracketIsUnique(track, t, index);
  }

  class PoolMobility {
    var vehicle: Option<Vehicle>
    var rows: Option<seq<Row>>
    var lastIndex: nat
    var parking: Vec

    ghost predicate Valid()
      reads this
    {
      && (vehicle.Some? <==> rows.Some?)
      && (rows.Some? ==> |rows.value| > 0 && SortedByTime(rows.value) && lastIndex < |rows.value|)
    }

    constructor (parking: Vec)
      ensures Valid() && vehicle == None && rows == None && this.parking == parking
    {
      this.vehicle, this.rows, this.lastIndex, this.parking := None, None, 0, parking;
    }

    method AssignVehicle(v: Vehicle, track: seq<Row>)
      requires |track| > 0
      modifies this
      ensures SortedByTime(track) ==> Valid()
      ensures vehicle == Some(v) && rows == Some(track) && lastIndex == 0
      ensures parking == old(parking)
    {
      vehicle, rows, lastIndex := Some(v), Some(track), 0;
    }

    method ReleaseVehicle()
      modifies this
      ensures Valid() && vehicle == None && rows == None && lastIndex == 0
      ensures parking == old(parking)
    {
      vehicle, rows, lastIndex := None, None, 0;
    }

    /** The two index loops shared by the position and the velocity query. */
    method Seek(t: int) returns (ghost moves: nat)
      requires Valid() && rows.Some? && rows.value[0].time < t < rows.value[|rows.value| - 1].time
      modifies this`lastIndex
      ensures Valid() && lastIndex == LastAtOrBefore(rows.value, t)
      ensures moves == Distance(old(lastIndex), lastIndex)
    {
      lastIndex, moves := Walk(rows.value, lastIndex, t);
    }

    method Interpolate(t: int, attribute: Row -> Vec, parked: Vec) returns (r: Vec, ghost moves: nat)
      requires Valid()
      modifies this`lastIndex
      ensures Valid()
      ensures rows == None ==> r == parked && lastIndex == old(lastIndex)
      ensures rows.Some? ==> r == At(rows.value, t, attribute)
      ensures rows.Some? ==> lastIndex == IndexAfter(rows.value, old(lastIndex), t)
      ensures moves == Distance(old(lastIndex), lastIndex)
    {
      moves := 0;
      if rows == None {
        return parked, 0;
      }
      var track := rows.value;
      if t <= track[0].time {
        return attribute(track[0]), 0;
      }
      if track[|track| - 1].time <= t {
        return attribute(track[|track| - 1]), 0;
      }
      moves := Seek(t);
      // The bracket is never degenerate, so a zero time step cannot be met here.
      var next := if lastIndex + 1 < |track| - 1 then lastIndex + 1 else |track| - 1;
      var a, b := track[lastIndex], track[next];
      assert a.time < b.time && next == lastIndex + 1;
      var alpha := Fraction(t, a.time, b.time);
      var clamped := if alpha > 1.0 then 1.0 else if alpha < 0.0 then 0.0 else alpha;
      r := Blend(attribute(a), attribute(b), clamped);
    }

    method InterpolatePosition(t: int) returns (r: Vec)
      requires Valid()
      modifies this`lastIndex
      ensures Valid()
      ensures r == if rows == None then parking else At(rows.value, t, RowPosition)
      ensures rows.Some? ==> lastIndex == IndexAfter(rows.value, old(lastIndex), t)
    {
      ghost var moves;
      r, moves := Interpolate(t, RowPosition, parking);
    }

    method InterpolateVelocity(t: int) returns (r: Vec)
      requires Valid()
      modifies this`lastIndex
      ensures Valid()
      ensures r == if rows == None then Vec(0.0, 0.0) else At(rows.value, t, RowVelocity)
      ensures rows.Some? ==> lastIndex == IndexAfter(rows.value, old(lastIndex), t)
    {
      ghost var moves;
      r, moves := Interpolate(t, RowVelocity, Vec(0.0, 0.0));
    }
  }

  // ----- Properties -----

  /** On a sorted track the row that starts the bracket of `t` is determined by `t` alone. */
  lemma BracketIsUnique(rows: seq<Row>, t: int, i: nat)
    requires SortedByTime(rows) && i < |rows| && rows[0].time <= t
    requires i == 0 || rows[i].time <= t
    requires i + 1 < |rows| ==> t < rows[i + 1].time
    ensures i == LastAtOrBefore(rows, t)
  {
  }

  /** Between two bracketing rows an interpolated coordinate lies between their coordinates. */
  lemma InterpolationIsBetween(rows: seq<Row>, t: int, attribute: Row -> Vec)
    requires |rows| > 0 && SortedByTime(rows)
    requires rows[0].time < t < rows[|rows| - 1].time
    ensures var i := LastAtOrBefore(rows, t);
      && i + 1 < |rows| && rows[i].time <= t < rows[i + 1].time
      && var a, b, p := attribute(rows[i]), attribute(rows[i + 1]), At(rows, t, attribute);
      && (a.x <= p.x <= b.x || b.x <= p.x <= a.x)
      && (a.y <= p.y <= b.y || b.y <= p.y <= a.y)
  {
    var i := LastAtOrBefore(rows, t);
    var a, b, alpha := attribute(rows[i]), attribute(rows[i + 1]), Fraction(t, rows[i].time, rows[i + 1].time);
    MixIsBetween(a.x, b.x, alpha);
    MixIsBetween(a.y, b.y, alpha);
  }

  /** On the straight line from `a` at time `from` to `b` at time `to`, the value at `t` is `p`. */
  predicate OnLine(from: int, a: real, to: int, b: real, t: int, p: real) {
    p * (to - from) as real == a * (to - t) as real + b * (t - from) as real
  }

  /** Inside the track the position at `t` lies on the line between the rows around it, outside it is that of the near end. */
  lemma PositionsAreLinear(rows: seq<Row>, t: int, i: nat)
    requires |rows| > 0 && SortedByTime(rows)
    ensures var p := At(rows, t, RowPosition);
      && (t <= rows[0].time ==> p.x == rows[0].x && p.y == rows[0].y)
      && (rows[0].time < t && rows[|rows| - 1].time <= t ==> p.x == rows[|rows| - 1].x && p.y == rows[|rows| - 1].y)
      && (rows[0].time < t && i + 1 < |rows| && rows[i].time <= t < rows[i + 1].time ==>
            var a, b := rows[i], rows[i + 1];
            OnLine(a.time, a.x, b.time, b.x, t, p.x) && OnLine(a.time, a.y, b.time, b.y, t, p.y))
  {
    hide OnLine, Mix, Fraction, LastAtOrBefore;
    if rows[0].time < t && i + 1 < |rows| && rows[i].time <= t < rows[i + 1].time {
      BracketIsUnique(rows, t, i);
      var a, b := rows[i], rows[i + 1];
      MixIsOnLine(a.time, a.x, b.time, b.x, t);
      MixIsOnLine(a.time, a.y, b.time, b.y, t);
    }
  }

  /** So does the velocity. */
  lemma VelocitiesAreLinear(rows: seq<Row>, t: int, i: nat)
    requires |rows| > 0 && SortedByTime(rows)
    ensures var p := At(rows, t, RowVelocity);
      && (t <= rows[0].time ==> p.x == rows[0].vx && p.y == rows[0].vy)
      && (rows[0].time < t && rows[|rows| - 1].time <= t ==> p.x == rows[|rows| - 1].vx && p.y == rows[|rows| - 1].vy)
      && (rows[0].time < t && i + 1 < |rows| && rows[i].time <= t < rows[i + 1].time ==>
            var a, b := rows[i], rows[i + 1];
            OnLine(a.time, a.vx, b.time, b.vx, t, p.x) && OnLine(a.time, a.vy, b.time, b.vy, t, p.y))
  {
    hide OnLine, Mix, Fraction, LastAtOrBefore;
    if rows[0].time < t && i + 1 < |rows| && rows[i].time <= t < rows[i + 1].time {
      BracketIsUnique(rows, t, i);
      var a, b := rows[i], rows[i + 1];
      MixIsOnLine(a.time, a.vx, b.time, b.vx, t);
      MixIsOnLine(a.time, a.vy, b.time, b.vy, t);
    }
  }

  lemma MixIsOnLine(from: int, a: real, to: int, b: real, t: int)
    requires from <= t < to
    ensures OnLine(from, a, to, b, t, Mix(a, b, Fraction(t, from, to)))
  {
    var n, d := (t - from) as real, (to - from) as real;
    var alpha := n / d;
    assert alpha * d == n && (to - t) as real == d - n;
    LineIdentity(a, b, alpha, n, d);
  }

  lemma LineIdentity(a: real, b: real, alpha: real, n: real, d: real)
    requires alpha * d == n
    ensures (a + alpha * (b - a)) * d == a * (d - n) + b * n
  {
    calc {
      (a + alpha * (b - a)) * d;
      a * d + (b - a) * (alpha * d);
      a * (d - n) + b * n;
    }
  }

  lemma MixIsBetween(a: real, b: real, alpha: real)
    requires 0.0 <= alpha <= 1.0
    ensures a <= Mix(a, b, alpha) <= b || b <= Mix(a, b, alpha) <= a
  {
    var d := b - a;
    var p := ScaleDown(alpha, d);
    assert Mix(a, b, alpha) == a + p;
  }

  lemma ScaleDown(alpha: real, d: real) returns (p: real)
    requires 0.0 <= alpha <= 1.0
    ensures p == alpha * d
    ensures 0.0 <= d ==> 0.0 <= p <= d
    ensures d <= 0.0 ==> d <= p <= 0.0
  {
    p := alpha * d;
    var rest := (1.0 - alpha) * d;
    assert p + rest == d;
    if 0.0 <= d {
      ProductIsNonNegative(alpha, d);
      ProductIsNonNegative(1.0 - alpha, d);
    } else {
      ProductIsNonNegative(alpha, -d);
      ProductIsNonNegative(1.0 - alpha, -d);
      assert p == -(alpha * -d) && rest == -((1.0 - alpha) * -d);
    }
  }

  lemma ProductIsNonNegative(x: real, y: real)
    requires 0.0 <= x && 0.0 <= y
    ensures 0.0 <= x * y
  {
  }

  ghost predicate NonDecreasing(ts: seq<int>) {
    forall i, j :: 0 <= i < j < |ts| ==> ts[i] <= ts[j]
  }

  /** Steps taken by the index loops over a whole series of queries. */
  function Movement(rows: seq<Row>, index: nat, ts: seq<int>): nat
    requires |rows| > 0 && index < |rows|
    decreases |ts|
  {
    if ts == [] then 0
    else
      var next := IndexAfter(rows, index, ts[0]);
      Distance(index, next) + Movement(rows, next, ts[1..])
  }

  /** From an assignment on, queries at non-decreasing times move the index at most |rows| - 1 steps in all. */
  lemma MovementIsLinear(rows: seq<Row>, ts: seq<int>)
    requires |rows| > 0 && SortedByTime(rows) && NonDecreasing(ts)
    ensures Movement(rows, 0, ts) <= |rows| - 1
  {
    MovementFrom(rows, 0, ts);
  }

  lemma {:induction false} MovementFrom(rows: seq<Row>, index: nat, ts: seq<int>)
    requires |rows| > 0 && SortedByTime(rows) && NonDecreasing(ts) && index < |rows|
    requires index == 0 || (ts != [] ==> rows[index].time <= ts[0])
    ensures Movement(rows, index, ts) <= |rows| - 1 - index
    decreases |ts|
  {
    if ts != [] {
      var t := ts[0];
      var next := IndexAfter(rows, index, t);
      MovementFrom(rows, next, ts[1..]);
    }
  }
}
