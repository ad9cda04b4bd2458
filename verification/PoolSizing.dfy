/**
  From the preprocessor's validation to the simulator: an output whose
  vehicle counts were validated never exhausts a pool of that size.
 */
module PoolSizing {
  import opened Prelude
  import opened Mobility
  import opened Schedule
  import opened Agenda
  import opened PoolRoom
  import ActiveWindow
  import KpiLog
  import KpiRun

  /** One output row: the index of its time on the sampling grid, and its vehicle. */
  datatype OutputRow = OutputRow(sample: int, vehicle: Vehicle)

  /** One sampling step in nanoseconds. */
  const GRID: int := ActiveWindow.STEP * 1_000_000

  ghost function VehiclesAt(rows: seq<OutputRow>, i: int): set<Vehicle> {
    set r | r in rows && r.sample == i :: r.vehicle
  }

  /** The validation: vehicle counts in bounds at every expected sample, no repeated row, and the whole time span covered. */
  ghost predicate Validated(p: ActiveWindow.Params, rows: seq<OutputRow>) {
    && 0 < p.length
    && (forall i :: 0 <= i < p.length ==> p.Allows(|VehiclesAt(rows, i)|))
    && NoDup(rows)
    && (exists r :: r in rows && r.sample == 0) && (exists r :: r in rows && r.sample == p.length - 1)
    && (forall r :: r in rows ==> 0 <= r.sample < p.length)
  }

  /** The simulator's tracks hold exactly the output's rows of the selected vehicles. */
  ghost predicate LoadedFrom(s: Setup, rows: seq<OutputRow>)
    requires s.Ok()
  {
    forall v, t :: v in s.ids ==>
      (HasRow(s.tracks[v], t) <==> t % GRID == 0 && OutputRow(t / GRID, v) in rows)
  }

  /** Each vehicle's samples are interpolated without gaps and span at least `minDuration` samples. */
  ghost predicate Interpolated(rows: seq<OutputRow>, minDuration: int) {
    && (forall v, a, b, i :: OutputRow(a, v) in rows && OutputRow(b, v) in rows && a <= i <= b ==> OutputRow(i, v) in rows)
    && (forall r :: r in rows ==> LongEnough(rows, r.vehicle, minDuration))
  }

  ghost predicate LongEnough(rows: seq<OutputRow>, v: Vehicle, minDuration: int) {
    exists a, b :: OutputRow(a, v) in rows && OutputRow(b, v) in rows && a + minDuration <= b
  }

  /** One radio per vehicle, up to the configured pool size. */
  predicate RadiosCreated(s: Setup, poolSize: nat) {
    |s.nodes| == if poolSize < |s.ids| then poolSize else |s.ids|
  }

  lemma PresentAreCounted(s: Setup, rows: seq<OutputRow>, t: int)
    requires s.Ok() && LoadedFrom(s, rows)
    ensures PresentAt(s, t) <= VehiclesAt(rows, t / GRID)
  {
    forall v | v in PresentAt(s, t) ensures v in VehiclesAt(rows, t / GRID) {
      assert OutputRow(t / GRID, v) in rows;
    }
  }

  /** The validated maximum bounds the sampled peak. */
  lemma ValidatedBoundsPeak(p: ActiveWindow.Params, rows: seq<OutputRow>, s: Setup, t: int)
    requires s.Ok() && LoadedFrom(s, rows) && Validated(p, rows)
    ensures |PresentAt(s, t)| <= if PresentAt(s, t) == {} then 0 else p.high
  {
    PresentAreCounted(s, rows, t);
    if PresentAt(s, t) != {} {
      var v :| v in PresentAt(s, t);
      assert OutputRow(t / GRID, v) in rows;
      SubsetCardinality(PresentAt(s, t), VehiclesAt(rows, t / GRID));
    }
  }

  lemma PresentAreSelected(s: Setup, t: int)
    requires s.Ok()
    ensures |PresentAt(s, t)| <= |s.ids|
  {
    NoDupCardinality(s.ids);
    SubsetCardinality(PresentAt(s, t), ToSet(s.ids));
  }

  lemma ValidatedPeakFits(p: ActiveWindow.Params, rows: seq<OutputRow>, s: Setup, poolSize: nat)
    requires s.Ok() && LoadedFrom(s, rows) && Validated(p, rows)
    requires RadiosCreated(s, poolSize) && p.high <= poolSize
    ensures PeakFits(s)
  {
    forall t ensures |PresentAt(s, t)| <= |s.nodes| {
      ValidatedBoundsPeak(p, rows, s, t);
      PresentAreSelected(s, t);
    }
  }

  lemma SampleOrder(t: int, u: int)
    ensures t % GRID == 0 && u % GRID == 0 && t <= u ==> t / GRID <= u / GRID
    ensures t % GRID == 0 ==> t == GRID * (t / GRID)
  {
  }

  /** Tracks loaded from an interpolated output lie gap-free on the sampling grid. */
  lemma LoadedIsOnGrid(rows: seq<OutputRow>, s: Setup, minDuration: int)
    requires s.Ok() && LoadedFrom(s, rows) && Interpolated(rows, minDuration)
    ensures GridSetup(s, GRID)
  {
    forall v | v in s.ids ensures OnGrid(s.tracks[v], GRID) {
      var track := s.tracks[v];
      FirstAndLast(track);
      forall t | First(track) <= t <= Last(track) && t % GRID == 0 ensures HasRow(track, t) {
        SampleOrder(First(track), t);
        SampleOrder(t, Last(track));
        assert OutputRow(t / GRID, v) in rows;
      }
    }
  }

  lemma SampleTime(i: int)
    ensures (GRID * i) % GRID == 0 && (GRID * i) / GRID == i
  {
  }

  lemma SampleIsLoaded(rows: seq<OutputRow>, s: Setup, v: Vehicle, i: int)
    requires s.Ok() && LoadedFrom(s, rows) && v in s.ids && OutputRow(i, v) in rows
    ensures HasRow(s.tracks[v], GRID * i)
  {
    SampleTime(i);
    assert OutputRow((GRID * i) / GRID, v) in rows;
  }

  /** A positive minimum duration leaves no track that ends at time 0. */
  lemma LongTracksOutlastStart(p: ActiveWindow.Params, rows: seq<OutputRow>, s: Setup, minDuration: int, v: Vehicle)
    requires s.Ok() && LoadedFrom(s, rows) && Validated(p, rows) && Interpolated(rows, minDuration)
    requires 0 < minDuration && v in s.ids
    ensures Last(s.tracks[v]) > 0
  {
    hide NoDup, VehiclesAt, ActiveWindow.Params.Allows;
    var track := s.tracks[v];
    FirstAndLast(track);
    assert OutputRow(First(track) / GRID, v) in rows;
    assert LongEnough(rows, v, minDuration);
    var a, b :| OutputRow(a, v) in rows && OutputRow(b, v) in rows && a + minDuration <= b;
    assert 0 <= OutputRow(a, v).sample;
    SampleIsLoaded(rows, s, v, b);
  }

  /**
    A validated and interpolated output whose tracks last at least a positive
    minimum, on a pool sized for the validated maximum: no run stops the simulator.
   */
  lemma ValidatedRunsNeverStop(p: ActiveWindow.Params, rows: seq<OutputRow>, minDuration: int, poolSize: nat,
                               cfg: KpiLog.Config, s: Setup, queue: seq<Event>)
    requires s.Ok() && LoadedFrom(s, rows) && Validated(p, rows) && Interpolated(rows, minDuration)
    requires 0 < minDuration && RadiosCreated(s, poolSize) && p.high <= poolSize
    requires 0 <= cfg.window && QueueFor(s, queue)
    ensures KpiRun.NeverStops(cfg, s, queue)
  {
    ValidatedPeakFits(p, rows, s, poolSize);
    LoadedIsOnGrid(rows, s, minDuration);
    forall v | v in s.ids ensures Last(s.tracks[v]) != 0 {
      LongTracksOutlastStart(p, rows, s, minDuration, v);
    }
    hide QueueFor, KpiRun.NeverStops, GridSetup, Validated, LoadedFrom, Interpolated, RoomAlways, PeakFits;
    PeakLeavesRoom(s);
    KpiRun.NeverStopsOnGridIff(cfg, s, GRID, queue);
  }
}
