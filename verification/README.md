# Closed-loop NR-V2X experiment: verification model

The repository runs a closed-loop vehicular radio experiment on ns-3: logical
vehicles with recorded tracks are lent a bounded set of physical radios, their
periodic messages are logged over a sliding window to compute reception and
channel-load metrics, and an external controller sets the transmit power
through a file bridge. This project models the logic behind it and proves what
holds in every run. Times are integers (nanoseconds, milliseconds or abstract
ticks), positions, powers and ratios are reals.

`dafny verify dfyconfig.toml` checks everything.

## Files

| file | models |
|---|---|
| Mobility.dfy | track interpolation over a cached moving index |
| CamApp.dfy, AppHistory.dfy, Pool.dfy, Radios.dfy | the CAM application lifecycle and what its histories amount to; the radio pool on values and in place |
| Schedule.dfy, Agenda.dfy, PoolRoom.dfy | initial assignment, event schedule, sampled peak; what is lent at any time; when the pool can run out |
| KpiLog.dfy, KpiRefinement.dfy | the pruned log of transmissions and receptions; its refinement of a log that never forgets |
| KpiRun.dfy | the whole run as one state machine |
| Cbr.dfy, CbrLog.dfy | the busy-interval sweep; recording, pruning and the mean over radios |
| JsonFields.dfy, JsonReading.dfy | the controller's JSON printer against the simulator's field extractors, and against a reader of the standard |
| Bridge.dfy, BridgeRuns.dfy | the two-process request and response protocol over files, and what its runs guarantee |
| Controller.dfy, Reply.dfy, Readings.dfy | the controller's checks for one request; what is reported of them, through the strict printer to the simulator's second check; what else the simulator reads of it |
| ControlLoop.dfy, ControlProgress.dfy | the two interleaved periodic loops and the sample history; how far they are at any time |
| ClosedLoop.dfy | event loop, file bridge, controller and JSON together, in any interleaving, with the end of the controller |
| ActiveWindow.dfy, PoolSizing.dfy | the search for the densest valid window; the validated output as a promise to the simulator |
| Workers.dfy | the test driver's worker and poison-pill protocol |
| Records.dfy, Gather.dfy, ConfigPaths.dfy, ConfigGraph.dfy, ConfigLabels.dfy | the record and its sort-and-thin helper; configuration-path enumeration over the type graph; what the record amounts to; what the type descriptions say of it; when it repeats an entry |
| Dependencies.dfy | dependency ordering of libraries |
| StyleFix.dfy | the guarded line-fixing passes |
| Hankel.dfy | Hankel windows and receding-horizon histories |

Classes model the objects and globals the programs update in place; every
method is proved against a step on values, and the lemmas are about those
steps. Protocols between threads or processes are state machines whose runs are
arbitrary sequences of enabled steps.

## Where the code does not keep a promise

Each of these is modelled as the code has it, with a proof of exactly when the
promise holds.

- A peak that fits the pool is meant to rule out exhaustion. It does not: a track
  that ends exactly at time 0 is assigned at the start but its release is never
  scheduled, so its radio is never returned (`PoolRoom.LeakExhaustsPool`), and a
  gap in a track hides it from the peak but not from the pool
  (`PoolRoom.GapExhaustsPool`). On any tracks, no run of any order of the schedule
  stops if and only if at every moment the vehicles assigned by then and not
  released before fit the radios (`PoolRoom.EveryOrderSufficesIff`,
  `KpiRun.NoOrderStopsIff`). On tracks without gaps on a common time grid these are
  the vehicles with a row and those leaked ones (`PoolRoom.PoolSufficesOnGridIff`,
  `KpiRun.NeverStopsOnGridIff`), so there a peak that fits is enough if no track
  ends at time 0 (`PoolRoom.PoolNeverExhausted`), as after preprocessing with a
  positive minimum duration (`PoolSizing.ValidatedRunsNeverStop`).
- Any failed check is meant to be answered with the previous power. But the
  objective and the residuals are reported even then, and the printer refuses
  numbers that are not finite, outside the failure handling: the controller ends
  without an answer and the simulator waits until it gives up, also for a plan that
  passed the check because its first residual is not a number
  (`Reply.NonFiniteIsNotAnswered`). A request is answered if and only if all
  diagnostics reported for it are finite (`Reply.AnsweredIff`,
  `ClosedLoop.SolveEndsIff`); what is answered takes effect as intended
  (`Reply.PlanTakesEffectIff`, `ClosedLoop.PowerFollowsPlans`).
- The busy-ratio logger by itself can need its clamp, namely exactly when more
  radios are recorded than divide the sum (`CbrLog.StrayRadioNeedsClamp`,
  `CbrLog.ClampSuperfluousIff`). This concerns the logger class alone: the
  simulation traces only radios that it also registers as evaluated, and such
  runs never need the clamp (`CbrLog.EvaluatedRunsNeedNoClamp`).
- The field extractors read the wrong field when an earlier string value mimics
  the key (`JsonFields.ObjectiveIsMisread`, `JsonFields.TargetIsFieldIff`),
  and cut or alter strings that needed an escape (`JsonFields.StatusIsReadBackIff`,
  `JsonFields.ExtractStringIntactIff`). This concerns the extractors alone: no
  solver status that the controller writes is the key of a field.
- The controller accepts powers up to 1e-6 beyond the limits, the simulator only
  up to 1e-9, so a reported success can be refused (`Reply.AcceptedButRefused`,
  `Reply.PlanTakesEffectIff`).
- A window all of whose samples exist is not found if a stray off-grid sample
  lies inside it (`ActiveWindow.StrayHidesWindow`, `ActiveWindow.WindowIff`).
- The history walk fails when exactly one of the horizons is zero
  (`Hankel.NoFutureBreaksWalk`, `Hankel.HistoryWalksIff`).
- The gatherer's final sort-and-thin is meant to work in place but gets a copy,
  so the record can stay unsorted and repetitive (`ConfigPaths.RecordKeepsRepetitions`).
  That makes no difference if and only if the entries of simple paths are ordered
  as the paths are (`ConfigPaths.RecordStaysIff`); repetitions come exactly from a
  type with the same edge twice (`ConfigLabels.RecordRepeatsIffTwin`).
- Library ordering never ends on cyclic or open dependencies
  (`Dependencies.CycleNeverEnds`, `Dependencies.RoundsEndIff`).

## What a bound rests on

Every reception ratio of every run is at most 1 (`KpiRun.EveryRatioIsAtMostOne`).
The logger does not enforce this: it holds because no application ever repeats a
number for the same vehicle (`KpiRun.NextKeyIsFresh`). Called directly with a
repeated number the logger writes a ratio of two (`KpiRefinement.RepeatedKeyBreaksRatio`).

## Model

| member | source | states |
|---|---|---|
| Mobility.Walk | scratch/nr_v2x_ngsim_deepc_closed_loop_deepc.cc:749-756 | The two index loops end on the last row at or before the query time from any starting index, and move at most the distance to it. |
| Mobility.PoolMobility.AssignVehicle | scratch/nr_v2x_ngsim_deepc_closed_loop_deepc.cc:679-687 | The model carries the new vehicle's track and forgets the cached index. |
| Mobility.PoolMobility.ReleaseVehicle | scratch/nr_v2x_ngsim_deepc_closed_loop_deepc.cc:695-701 | The model is detached and parked again. |
| Mobility.PoolMobility.Interpolate | scratch/nr_v2x_ngsim_deepc_closed_loop_deepc.cc:732-768 | The answer is that of a fresh search whatever earlier queries did to the index, which moves exactly the distance to the bracket; the guard for a non-positive row gap is never taken. |
| Mobility.PoolMobility.InterpolatePosition | scratch/nr_v2x_ngsim_deepc_closed_loop_deepc.cc:732-768 | Position queries are those of a fresh search; unassigned models answer the parking position. |
| Mobility.PoolMobility.InterpolateVelocity | scratch/nr_v2x_ngsim_deepc_closed_loop_deepc.cc:776-814 | Velocity queries are those of a fresh search over the same shared index; unassigned models answer zero. |
| Mobility.BracketIsUnique | scratch/nr_v2x_ngsim_deepc_closed_loop_deepc.cc:749-756 | A row that brackets the time is the last one at or before it. |
| Mobility.InterpolationIsBetween | scratch/nr_v2x_ngsim_deepc_closed_loop_deepc.cc:758-767 | Each interpolated coordinate lies between those of the two bracketing rows. |
| Mobility.PositionsAreLinear | scratch/nr_v2x_ngsim_deepc_closed_loop_deepc.cc:732-768 | Between two consecutive rows the position lies on the line through them at the time asked, measured from the earlier row; at or before the first row it is the first position, at or after the last the last. |
| Mobility.VelocitiesAreLinear | scratch/nr_v2x_ngsim_deepc_closed_loop_deepc.cc:776-814 | So does the velocity. |
| Mobility.MovementIsLinear | scratch/nr_v2x_ngsim_deepc_closed_loop_deepc.cc:749-756 | Over any non-decreasing queries the index moves at most rows minus one steps in all. |
| CamApp.CamApplication.AssignVehicle | scratch/nr_v2x_ngsim_deepc_closed_loop_deepc.cc:1903-1911 | Assignment starts dissemination exactly when the application runs. |
| CamApp.CamApplication.ReleaseVehicle | scratch/nr_v2x_ngsim_deepc_closed_loop_deepc.cc:1919-1927 | Release stops dissemination and clears the vehicle, keeping the sequence counter. |
| CamApp.CamApplication.StartApplication | scratch/nr_v2x_ngsim_deepc_closed_loop_deepc.cc:1947-1985 | A started application disseminates exactly when it has a vehicle. |
| CamApp.CamApplication.StopApplication | scratch/nr_v2x_ngsim_deepc_closed_loop_deepc.cc:1993-2003 | A stopped application is silent but keeps its vehicle. |
| CamApp.CamApplication.Tag | scratch/nr_v2x_ngsim_deepc_closed_loop_deepc.cc:2012-2028 | Only a running application with a vehicle tags, and each tag uses the next number. |
| CamApp.CamApplication.StartCamIfReady | scratch/nr_v2x_ngsim_deepc_closed_loop_deepc.cc:2120-2131 | Dissemination begins only if running, assigned and not yet begun. |
| CamApp.CamApplication.StopCamIfRunning | scratch/nr_v2x_ngsim_deepc_closed_loop_deepc.cc:2139-2148 | Dissemination has ended afterwards. |
| AppHistory.RunsIff | scratch/nr_v2x_ngsim_deepc_closed_loop_deepc.cc:1947-2003 | After any history of lifecycle calls the application runs exactly if the last start or stop was a start. |
| AppHistory.CarriesIff | scratch/nr_v2x_ngsim_deepc_closed_loop_deepc.cc:1903-1927 | It has the vehicle of the last assignment, unless it was released since. |
| AppHistory.DisseminatesAndCounts | scratch/nr_v2x_ngsim_deepc_closed_loop_deepc.cc:2012-2028 | It disseminates exactly while it runs and has a vehicle, and its counter is the number of tags asked for at such times. |
| Pool.EmptyPoolInv | scratch/nr_v2x_ngsim_deepc_closed_loop_deepc.cc:259-266 | A pool of distinct radios starts with the two id maps inverse, all radios free and parked. |
| Radios.CreatePool | scratch/nr_v2x_ngsim_deepc_closed_loop_deepc.cc:3404-3418 | Creating the radios one by one gives that pool: all free in the order of creation, with an object of its own each, and no two parked on the same spot. |
| Pool.AssignKeepsInv | scratch/nr_v2x_ngsim_deepc_closed_loop_deepc.cc:2179-2211 | Assignment keeps the maps mutual inverses, free and lent radios a partition, and mobility and applications in step with the map. |
| Pool.ReleaseKeepsInv | scratch/nr_v2x_ngsim_deepc_closed_loop_deepc.cc:2219-2248 | So does release, including release of a vehicle that is not assigned. |
| Pool.AppStepKeepsInv | scratch/nr_v2x_ngsim_deepc_closed_loop_deepc.cc:1947-2028 | So do starting, stopping and tagging; an application disseminates exactly while running and assigned. |
| Pool.InstallAppKeepsInv | scratch/nr_v2x_ngsim_deepc_closed_loop_deepc.cc:3690-3708 | So does creating an application on a radio that may already be lent. |
| Pool.MobilityIsNeverMissing | scratch/nr_v2x_ngsim_deepc_closed_loop_deepc.cc:2197-2199 | The abort for a radio without a mobility model cannot happen. |
| Pool.PoolConservation | scratch/nr_v2x_ngsim_deepc_closed_loop_deepc.cc:2179-2248 | Lent and free radios always number the whole pool. |
| Pool.ReleaseUndoesAssign | scratch/nr_v2x_ngsim_deepc_closed_loop_deepc.cc:2179-2248 | Releasing a vehicle right after assigning it restores the whole pool, maps, mobility and applications, except that the free list has rotated by one. |
| Radios.VehiclePool.AssignVehicleToPool | scratch/nr_v2x_ngsim_deepc_closed_loop_deepc.cc:2179-2211 | The global maps, free list and objects change as the assignment step says, or the first failing check names the abort. |
| Radios.VehiclePool.LendNode | scratch/nr_v2x_ngsim_deepc_closed_loop_deepc.cc:2194-2211 | The longest-free radio is lent, with its mobility and application attached. |
| Radios.VehiclePool.ReleaseVehicleFromPool | scratch/nr_v2x_ngsim_deepc_closed_loop_deepc.cc:2219-2248 | The radio goes to the back of the free list with application and mobility detached; unknown vehicles change nothing. |
| Radios.VehiclePool.CreateApp | scratch/nr_v2x_ngsim_deepc_closed_loop_deepc.cc:3690-3708 | A new application takes over the vehicle its radio already carries. |
| Schedule.ComputeMobilityTimeRange | scratch/nr_v2x_ngsim_deepc_closed_loop_deepc.cc:425-438 | The least and greatest row time, or the stop on an empty track. |
| Schedule.FirstAndLast | scratch/nr_v2x_ngsim_deepc_closed_loop_deepc.cc:425-438 | Both ends are row times and every row time lies between them. |
| Schedule.ScheduleDynamicPoolAssignments | scratch/nr_v2x_ngsim_deepc_closed_loop_deepc.cc:2276-2295 | Each vehicle's assignment and release are scheduled at most once, exactly when they fall in the run and after the start tolerance, and nothing else is. |
| Schedule.ScheduleIsExact | scratch/nr_v2x_ngsim_deepc_closed_loop_deepc.cc:2276-2295 | The same for the first k vehicles, by induction. |
| Schedule.AssignInitialDynamicPoolVehicles | scratch/nr_v2x_ngsim_deepc_closed_loop_deepc.cc:2256-2268 | Vehicles whose track covers the start are assigned in order, up to the first abort. |
| Schedule.InitialRadios | scratch/nr_v2x_ngsim_deepc_closed_loop_deepc.cc:2256-2268 | The vehicles on the road at the start get the radios one after the other, in the order of the vehicles; the remaining radios stay free in their order. |
| Schedule.ComputePeakActiveCount | scratch/nr_v2x_ngsim_deepc_closed_loop_deepc.cc:468-509 | No row time has more vehicles than the peak, and a positive peak is attained. |
| Agenda.AgendaStarts | scratch/nr_v2x_ngsim_deepc_closed_loop_deepc.cc:2256-2295 | After the initial assignment the queue holds exactly what is still to come and the active set exactly the vehicles lent a radio. |
| Agenda.AgendaFires | scratch/nr_v2x_ngsim_deepc_closed_loop_deepc.cc:2276-2295 | Firing the next event keeps that, whichever way ties fall. |
| Agenda.FireKeepsInv | scratch/nr_v2x_ngsim_deepc_closed_loop_deepc.cc:2179-2295 | Every event that does not stop the simulator keeps the pool invariant and the agenda. |
| Agenda.OnlyExhaustionAborts | scratch/nr_v2x_ngsim_deepc_closed_loop_deepc.cc:2183-2199 | Of the four reasons to stop, a run can only meet an exhausted pool, and exactly when an assignment finds no free radio. |
| Agenda.ActiveSetIsExact | scratch/nr_v2x_ngsim_deepc_closed_loop_deepc.cc:2256-2295 | On a common time grid, after all events up to t the active vehicles are those whose track covers t, plus the ones whose track ends exactly at time 0. |
| Agenda.ActiveSetIsExpectedIff | scratch/nr_v2x_ngsim_deepc_closed_loop_deepc.cc:2286-2292 | The active set is exactly the covering tracks if and only if no track ends exactly at time 0. |
| PoolRoom.PoolNeverExhausted | scratch/nr_v2x_ngsim_deepc_closed_loop_deepc.cc:3352-3373 | On such a grid, if the sampled peak fits the radios and no track ends at time 0, no prefix of any schedule order stops the simulator. |
| PoolRoom.AssignmentFindsRadio | scratch/nr_v2x_ngsim_deepc_closed_loop_deepc.cc:2186-2188 | On any tracks: if at every moment the vehicles assigned by then and not released before fit the radios, every due assignment finds a free radio. |
| PoolRoom.PoolSufficesIff | scratch/nr_v2x_ngsim_deepc_closed_loop_deepc.cc:2179-2295 | On any tracks, a schedule in which assignments win ties is worked off if and only if at every moment the vehicles assigned by then and not released before fit the radios. |
| PoolRoom.EveryOrderSufficesIff | scratch/nr_v2x_ngsim_deepc_closed_loop_deepc.cc:2179-2295 | On any tracks, no order of simultaneous events stops the simulator if and only if those vehicles always fit. |
| PoolRoom.RoomOnGridIff | scratch/nr_v2x_ngsim_deepc_closed_loop_deepc.cc:2256-2295 | On a common time grid without gaps they always fit if and only if the vehicles with a row, together with those whose track ends exactly at time 0, do. |
| PoolRoom.PoolSufficesOnGridIff | scratch/nr_v2x_ngsim_deepc_closed_loop_deepc.cc:2179-2295 | On such a grid any order of the schedule is worked off if and only if the vehicles with a row and those leaked ones fit at every moment. |
| PoolRoom.RunNeedsRoom | scratch/nr_v2x_ngsim_deepc_closed_loop_deepc.cc:2179-2295 | The necessary half: such a schedule worked off to the end had that room at every moment. |
| Agenda.EventsKeepInv | scratch/nr_v2x_ngsim_deepc_closed_loop_deepc.cc:2179-2295 | After every prefix of the schedule that did not stop the simulator pool and agenda are in order. |
| PoolRoom.LeakExhaustsPool | scratch/nr_v2x_ngsim_deepc_closed_loop_deepc.cc:2286-2292 | A peak that fits is not enough: one radio, peak one, a track that ends at time 0, and an exhausted pool. |
| PoolRoom.GapExhaustsPool | scratch/nr_v2x_ngsim_deepc_closed_loop_deepc.cc:468-509 | Nor is it with a gap: one radio, a track with no row between 0 and 200 ms, another vehicle at 100 ms, peak one, and an exhausted pool. |
| KpiLog.KpiLogger.LogTx | scratch/nr_v2x_ngsim_deepc_closed_loop_deepc.cc:1145-1196 | An admitted transmission is logged with exactly the vehicles in range and inside the core; anything else leaves the log unchanged. |
| KpiLog.KpiLogger.LogRx | scratch/nr_v2x_ngsim_deepc_closed_loop_deepc.cc:1204-1265 | A reception is logged once per triple, only if both radios carry their vehicles, the position is inside the core and the receiver was eligible. |
| KpiLog.KpiLogger.FindTxEvent | scratch/nr_v2x_ngsim_deepc_closed_loop_deepc.cc:1509-1519 | The transmission with the key that has none of this key after it, or none if there is no such transmission. |
| KpiLog.KpiLogger.PruneOldEvents | scratch/nr_v2x_ngsim_deepc_closed_loop_deepc.cc:1441-1478 | Old fronts are popped, then receptions without a live transmission; the triple set loses what the deque loses. |
| KpiLog.KpiLogger.TakeSample | scratch/nr_v2x_ngsim_deepc_closed_loop_deepc.cc:1273-1306 | The counts written are taken from the pruned log: eligible sum, distinct successful triples, and reception intervals. |
| KpiLog.EligibleReceivers | scratch/nr_v2x_ngsim_deepc_closed_loop_deepc.cc:1156-1184 | The eligible vehicles are exactly those carried by another radio, inside the core and within range. |
| KpiLog.HearsIff | scratch/nr_v2x_ngsim_deepc_closed_loop_deepc.cc:1156-1184 | A radio a given distance away in any direction should hear a message if and only if it is another one, carries another vehicle, stands inside the core and is no farther than the range. |
| KpiLog.FindTx | scratch/nr_v2x_ngsim_deepc_closed_loop_deepc.cc:1509-1519 | A transmission is found exactly when its key is in the log. |
| KpiLog.RangeIsDisc | scratch/nr_v2x_ngsim_deepc_closed_loop_deepc.cc:1156-1184 | A position a given distance away in any direction is in range if and only if the distance is at most the range. |
| KpiLog.PirTotalsAdd | scratch/nr_v2x_ngsim_deepc_closed_loop_deepc.cc:1299-1309 | The interval sum and count add up over receptions, and a single one adds its interval if it has one. |
| KpiRefinement.PruneRefines | scratch/nr_v2x_ngsim_deepc_closed_loop_deepc.cc:1441-1478 | After pruning, the transmission deque is exactly the logged transmissions inside the window, the reception deque exactly the first receptions of those, and the triple set theirs. |
| KpiRefinement.TxRefines | scratch/nr_v2x_ngsim_deepc_closed_loop_deepc.cc:1187-1195 | Logging a transmission with a fresh key keeps the log the window of a logger that never forgets. |
| KpiRefinement.RxRefines | scratch/nr_v2x_ngsim_deepc_closed_loop_deepc.cc:1227-1265 | So does any reception attempt, and an accepted triple had never been seen before. |
| KpiRefinement.AcceptsIff | scratch/nr_v2x_ngsim_deepc_closed_loop_deepc.cc:1222-1245 | The pruned log accepts exactly what the unbounded logger accepts while the transmission is in the window, and nothing afterwards. |
| KpiRefinement.SuccessesAreEligible | scratch/nr_v2x_ngsim_deepc_closed_loop_deepc.cc:1279-1297 | A sample whose receptions were all eligible never counts more successes than eligible receptions. |
| KpiRefinement.RefinementIsCovered | scratch/nr_v2x_ngsim_deepc_closed_loop_deepc.cc:1204-1265 | A log that refines the history has only eligible receptions. |
| KpiRefinement.EligibleSumIsOwed | scratch/nr_v2x_ngsim_deepc_closed_loop_deepc.cc:1281-1297 | If the keys differ, the denominator is the number of pairs of a transmission and a vehicle eligible for it. |
| KpiRefinement.RatioRange | scratch/nr_v2x_ngsim_deepc_closed_loop_deepc.cc:1296-1297 | The written ratio times the eligible receptions gives the successes, or is zero if there are none; it is at most 1 exactly when the counts are ordered or the denominator is zero. |
| KpiRefinement.FrontPopsAreWindow | scratch/nr_v2x_ngsim_deepc_closed_loop_deepc.cc:1447-1450 | Popping old fronts of a time-ordered deque leaves exactly the window. |
| KpiRefinement.AddedKeepsPaced | scratch/nr_v2x_ngsim_deepc_closed_loop_deepc.cc:1244-1261 | A logged reception's interval is the time since the one logged last before it for the same pair, if any, and the per-pair last times stay those of all receptions ever logged. |
| KpiRefinement.PruneKeepsPaced | scratch/nr_v2x_ngsim_deepc_closed_loop_deepc.cc:1441-1478 | Pruning forgets receptions but not the last times, so later intervals are unaffected. |
| KpiRefinement.RepeatedKeyRun | scratch/nr_v2x_ngsim_deepc_closed_loop_deepc.cc:1509-1519 | The logger alone does not check keys: four logging calls in which a vehicle sends number 0 twice. |
| KpiRefinement.RepeatedKeyBreaksRatio | scratch/nr_v2x_ngsim_deepc_closed_loop_deepc.cc:1273-1297 | Those calls write a ratio of two, so the bound rests on the uniqueness that every run of the program has. |
| KpiRun.NextKeyIsFresh | scratch/nr_v2x_ngsim_deepc_closed_loop_deepc.cc:2012-2028 | In every reachable state the number an application is about to use has never been used by its vehicle. |
| KpiRun.FireKeepsRun | scratch/nr_v2x_ngsim_deepc_closed_loop_deepc.cc:2179-2295 | Pool events keep the run invariant: a vehicle is assigned at most once, so its numbers stay below one counter. |
| KpiRun.TransmitKeepsRun | scratch/nr_v2x_ngsim_deepc_closed_loop_deepc.cc:2012-2028 | Tagging and logging a transmission keeps it. |
| KpiRun.ReceiveKeepsRun | scratch/nr_v2x_ngsim_deepc_closed_loop_deepc.cc:2050-2087 | Any packet from anywhere at any time keeps it. |
| KpiRun.SampleKeepsRun | scratch/nr_v2x_ngsim_deepc_closed_loop_deepc.cc:1273-1352 | Sampling keeps it, and the new sample has its counts in order. |
| KpiRun.StepKeepsInv | scratch/nr_v2x_ngsim_deepc_closed_loop_deepc.cc:1145-1352 | Every step of the whole machine keeps the run invariant. |
| KpiRun.RunsKeepInv | scratch/nr_v2x_ngsim_deepc_closed_loop_deepc.cc:1145-1352 | Every run from the initial assignment satisfies the run invariant. |
| KpiRun.EveryRatioIsAtMostOne | scratch/nr_v2x_ngsim_deepc_closed_loop_deepc.cc:1273-1297 | In every run every ratio written lies in [0, 1], no triple is accepted twice, and no key is logged twice. |
| KpiRun.SamplesSeeTheWindow | scratch/nr_v2x_ngsim_deepc_closed_loop_deepc.cc:1273-1306 | Every sample written in a run was taken at some step; its counts are the number of messages sent within the window up to that step, of the pairs of such a message and a vehicle eligible for it, and of the pairs among first receptions whose message is in the window; its interval sum and count are those of these receptions; all that came later came at its time or after. |
| KpiRun.TransmitIsLoggedIff | scratch/nr_v2x_ngsim_deepc_closed_loop_deepc.cc:2012-2028 | A transmission is logged, with its time, vehicle and number, if and only if the application runs on a lent radio inside the evaluated time and place; its number is used up whether or not it is logged. |
| KpiRun.ReceptionIsLoggedIff | scratch/nr_v2x_ngsim_deepc_closed_loop_deepc.cc:2050-2087 | A packet on a lent radio is logged if and only if its source still carries the tagged vehicle, time and place are evaluated, and the message was sent within what is kept, was due for this vehicle and has not been logged to it before. |
| KpiRun.StrangersAreIgnored | scratch/nr_v2x_ngsim_deepc_closed_loop_deepc.cc:2050-2087 | A packet on a radio that is not lent or has no application changes nothing. |
| KpiRun.LoggingPrunes | scratch/nr_v2x_ngsim_deepc_closed_loop_deepc.cc:1441-1478 | In every run, after every sample, every logged transmission and every logged reception the log holds exactly the transmissions of the window; no other step changes it. |
| KpiRun.IntervalsAreGaps | scratch/nr_v2x_ngsim_deepc_closed_loop_deepc.cc:1244-1261 | In every run each logged reception carries the time since the one logged last before it for its pair, however long ago, and none if there was none. |
| KpiRun.NoRunStops | scratch/nr_v2x_ngsim_deepc_closed_loop_deepc.cc:2179-2199 | If the vehicles assigned and not released always fit, no step of any run stops the simulator. |
| KpiRun.NoOrderStopsIff | scratch/nr_v2x_ngsim_deepc_closed_loop_deepc.cc:2179-2295 | On any tracks, the simulator starts and no step of any run of any schedule order stops it, if and only if those vehicles always fit. |
| KpiRun.NeverStopsOnGridIff | scratch/nr_v2x_ngsim_deepc_closed_loop_deepc.cc:2179-2295 | On a common time grid this holds of each schedule order if and only if the vehicles with a row and the leaked ones always fit. |
| KpiRun.RunFollowsTracks | scratch/nr_v2x_ngsim_deepc_closed_loop_deepc.cc:2256-2295 | In every run the active set follows the tracks, and applications disseminate exactly when running on a lent radio. |
| PoolSizing.ValidatedBoundsPeak | scripts/preprocess_ngsim.py:329-351 | The validated maximum count bounds the number of vehicles the simulator sees at any time. |
| PoolSizing.LoadedIsOnGrid | scripts/preprocess_ngsim.py:296-302 | Tracks loaded from an interpolated output lie on the sampling grid without gaps. |
| PoolSizing.LongTracksOutlastStart | scripts/preprocess_ngsim.py:297-300 | With a positive minimum duration no track ends at time 0. |
| PoolSizing.ValidatedRunsNeverStop | scratch/nr_v2x_ngsim_deepc_closed_loop_deepc.cc:3358-3373 | A validated, interpolated output with a positive minimum track duration, with one radio per vehicle capped at a pool size of at least the validated maximum, never stops the simulator in any run. |
| Cbr.Clip | src/cbr-logger.cc:184-194 | Clipping keeps, inside the window, exactly the covered ticks. |
| Cbr.Merge | src/cbr-logger.cc:207-225 | Merging start-sorted intervals adds up the measure of their union. |
| Cbr.ComputeBusyFraction | src/cbr-logger.cc:181-227 | The sweep returns the covered share of the window for intervals in any order, and the cap at 1 is never needed. |
| Cbr.FractionIsShare | src/cbr-logger.cc:181-227 | That share times the window is the number of covered ticks in it. |
| Cbr.MergeStep | src/cbr-logger.cc:210-222 | One sweep step keeps the closed measure, the pending interval and the uncovered rest apart. |
| CbrLog.CbrLogger.RecordChannelOccupied | src/cbr-logger.cc:121-140 | An admitted positive duration is appended to its context and old fronts are pruned; anything else changes nothing. |
| CbrLog.CbrLogger.ComputeCbr | src/cbr-logger.cc:282-286 | The clamped mean over radios of the mean over their contexts of the measured busy shares, after pruning. |
| CbrLog.CbrLogger.PruneAll | src/cbr-logger.cc:373-381 | Each context loses exactly its front of intervals that ended before the cutoff. |
| CbrLog.ComputeChannelOccupiedCbr | src/cbr-logger.cc:229-279 | The value computed by the loops is the mean over radios of the set measures, with the evaluated or the recorded radios as divisor. |
| CbrLog.CollectShares | src/cbr-logger.cc:231-248 | Per radio the sum and number of the busy shares of its contexts. |
| CbrLog.MeanSumTakes | src/cbr-logger.cc:250-257 | The order in which radios are added up does not matter. |
| CbrLog.PruningIsInvisible | src/cbr-logger.cc:360-382 | For every run with non-decreasing time, every present and future ratio equals that of the full history. |
| CbrLog.RunAbridges | src/cbr-logger.cc:121-140 | In every such run each deque is its full history without a front of intervals that ended before the cutoff. |
| CbrLog.HistoryCovers | src/cbr-logger.cc:121-140 | Over any run the full history of a context covers exactly the ticks from the start of an admitted trace of that context to its start plus its duration. |
| CbrLog.LoggerCovers | src/cbr-logger.cc:121-140 | The pruned logger covers the same ticks from the start of the window on, with one deque per context, marked with its radio. |
| CbrLog.ContextsOfRun | src/cbr-logger.cc:121-140 | A deque exists exactly for the contexts of admitted traces, and stays when it is empty. |
| CbrLog.FrontsAreRecent | src/cbr-logger.cc:373-381 | After every admitted trace and every query no deque begins with an interval that ended before the window. |
| CbrLog.BusyShareOfRun | src/cbr-logger.cc:181-248 | After any run the busy share of a deque times the window is the number of ticks in the window at which an admitted trace makes that channel busy. |
| CbrLog.SharesAdd | src/cbr-logger.cc:231-248 | Sums and numbers of busy shares add up over contexts, and a context adds its share to the radio it names. |
| CbrLog.MeanIsAverage | src/cbr-logger.cc:250-257 | The mean of a radio times the number of its shares is their sum. |
| CbrLog.RatioIsMeanOverRadios | src/cbr-logger.cc:259-279 | The ratio times the number of radios that count, the evaluated ones or else the recorded ones, is the sum of the means, and zero if none counts. |
| CbrLog.SameCbr | src/cbr-logger.cc:229-279 | Deques that differ only in such fronts have the same ratio. |
| CbrLog.UnclampedInRange | src/cbr-logger.cc:229-286 | If no more radios are recorded than divide the sum, the ratio is in [0, 1] before the clamp. |
| CbrLog.EvaluatedRadiosFit | src/cbr-logger.cc:259-270 | It is enough that every recorded radio is an evaluated one. |
| CbrLog.ClampSuperfluousIff | src/cbr-logger.cc:282-286 | The clamp at 1 is superfluous for every content of the deques if and only if the recorded radios fit the divisor. |
| CbrLog.SaturatedExceeds | src/cbr-logger.cc:229-279 | Otherwise fully busy channels give a ratio above 1. |
| CbrLog.StrayRadioNeedsClamp | src/cbr-logger.cc:229-286 | Two recorded busy intervals, one of a radio that is not evaluated, give a ratio above 1 before the clamp. |
| CbrLog.EvaluatedRunsNeedNoClamp | src/cbr-logger.cc:259-286 | Runs in which only evaluated radios are traced keep the ratio in [0, 1] before the clamp. |
| JsonFields.LocateIsTarget | scratch/nr_v2x_ngsim_deepc_closed_loop_deepc.cc:2515-2519 | On every printed object the search for key and colon lands at the value of one determined field: the first with the key, or the one right after an earlier string that mimics the key. |
| JsonFields.ExtractNumberIsTarget | scratch/nr_v2x_ngsim_deepc_closed_loop_deepc.cc:2511-2540 | Number extraction returns that field's number and fails if it holds none. |
| JsonFields.ExtractBoolIsTarget | scratch/nr_v2x_ngsim_deepc_closed_loop_deepc.cc:2548-2571 | Boolean extraction returns that field's truth value and fails if it holds none. |
| JsonFields.TargetIsFieldIff | scratch/nr_v2x_ngsim_deepc_closed_loop_deepc.cc:2514-2519 | The field read is the field with the key if and only if no string more than one field earlier equals the key or ends in a quote and the key. |
| JsonFields.MimickingStatusMisleads | scratch/nr_v2x_ngsim_deepc_closed_loop_deepc.cc:2514-2519 | A solver status equal to the key of a later diagnostic makes the power be read in its place. |
| JsonFields.ObjectiveIsMisread | scratch/nr_v2x_ngsim_deepc_closed_loop_deepc.cc:2514-2519 | One such response: the power 17.25 is extracted as the objective, which is 2.5. |
| JsonFields.StringValue | scratch/nr_v2x_ngsim_deepc_closed_loop_deepc.cc:2514-2519 | A printed string value is skipped by the search unless it mimics the key. |
| JsonFields.ExtractStringIntactIff | scratch/nr_v2x_ngsim_deepc_closed_loop_deepc.cc:2579-2600 | A string is read back intact if and only if it needed no escape. |
| JsonFields.StatusIsReadBackIff | scratch/nr_v2x_ngsim_deepc_closed_loop_deepc.cc:2579-2600 | The solver status is read back if and only if it needed no escape; a quote is not read back. |
| JsonFields.CommandIsReadBack | scripts/deepc_osqp_file_controller.py:319-325 | Verdict and power are read back from every response, whatever its solver status says. |
| JsonFields.DiagnosticIsFoundIff | scripts/deepc_osqp_file_controller.py:319-344 | A later diagnostic is found if and only if the solver status does not mimic its key. |
| JsonFields.ExtractJsonNumber | scratch/nr_v2x_ngsim_deepc_closed_loop_deepc.cc:2511-2540 | The scanning loops compute the number extraction. |
| JsonFields.ExtractJsonBool | scratch/nr_v2x_ngsim_deepc_closed_loop_deepc.cc:2548-2571 | The scanning loops compute the boolean extraction. |
| JsonFields.ExtractJsonString | scratch/nr_v2x_ngsim_deepc_closed_loop_deepc.cc:2579-2600 | The scanning loops compute the string extraction. |
| JsonReading.DecodedIsOriginal | scripts/deepc_osqp_file_controller.py:54-59 | Undoing the escapes as section 7 of RFC 8259 has it gives back every printed string, surrogate pairs included. |
| JsonReading.ListIsRead | scripts/deepc_osqp_file_controller.py:54-59 | The numbers found in a printed list are those of the list, in order. |
| Bridge.StepKeepsInv | scratch/nr_v2x_ngsim_deepc_closed_loop_deepc.cc:2711-2734 | Every file operation of either process keeps the protocol invariant. |
| Bridge.SnapshotIsOne | scripts/deepc_osqp_file_controller.py:431-434 | A poll sees nothing or the one request without a response. |
| Bridge.EveryRunKeepsInv | scripts/deepc_osqp_file_controller.py:424-455 | Every interleaving from empty directories keeps the invariant. |
| BridgeRuns.ReadsAreWhole | scripts/deepc_osqp_file_controller.py:54-59 | No partial file is ever read, in either direction. |
| BridgeRuns.OneRequestAtATime | scratch/nr_v2x_ngsim_deepc_closed_loop_deepc.cc:2711-2734 | At most one request is unanswered, and requests are solved at most once each, in order. |
| BridgeRuns.ResponseMatchesRequest | scratch/nr_v2x_ngsim_deepc_closed_loop_deepc.cc:2711-2734 | The response read at step k is the only answer computed for step k, from the request sent at step k. |
| BridgeRuns.StepsGetCloser | scripts/deepc_osqp_file_controller.py:430-455 | While the simulator waits, every step that changes anything brings the response closer. |
| BridgeRuns.BusyIsNeverStuck | scripts/deepc_osqp_file_controller.py:430-455 | While the simulator waits, some step that changes the state is possible, unless the controller's step limit is used up. |
| BridgeRuns.ResponseCanBeRead | scripts/deepc_osqp_file_controller.py:424-455 | From every busy state some run of steps that all change something reads the response of the current request, and nothing else in between. |
| BridgeRuns.LimitIsKept | scripts/deepc_osqp_file_controller.py:424-455 | With a limit the controller never answers more requests than that. |
| ControlLoop.DeepcFileBridge.PushSample | scratch/nr_v2x_ngsim_deepc_closed_loop_deepc.cc:2656-2670 | A sample later than the last is appended and the history cut to the newest ones; any other is refused. |
| ControlLoop.PushesIncrease | scratch/nr_v2x_ngsim_deepc_closed_loop_deepc.cc:2656-2670 | Whatever samples are pushed, those kept are pushed ones, each later than the one before by more than the tolerance, and none pushed is later than the last kept by more than it. |
| ControlLoop.LaterIsPushed | scratch/nr_v2x_ngsim_deepc_closed_loop_deepc.cc:2656-2670 | A sample later than all before it by more than the tolerance is taken, and is the newest. |
| ControlLoop.DeepcFileBridge.RequestControl | scratch/nr_v2x_ngsim_deepc_closed_loop_deepc.cc:2761-2786 | Only a successful response with a power in bounds is applied, so bounds are kept. |
| ControlLoop.AlignedPushes | scratch/nr_v2x_ngsim_deepc_closed_loop_deepc.cc:2933-2946 | Every bridge step that runs finds one new sample taken since the last command. |
| ControlLoop.BridgeKeepsInv | scratch/nr_v2x_ngsim_deepc_closed_loop_deepc.cc:2922-2974 | A bridge step keeps the alignment of the two loops and the logs of pushes and requests. |
| ControlLoop.SampleKeepsInv | scratch/nr_v2x_ngsim_deepc_closed_loop_deepc.cc:1327-1351 | So does a sampling step. |
| ControlLoop.SamplesArePushedInOrder | scratch/nr_v2x_ngsim_deepc_closed_loop_deepc.cc:3737-3763 | In every run bridge steps push consecutive samples, none skipped or repeated, from the first one after the evaluation start, and the history is the newest few. |
| ControlLoop.RequestsAreGapless | scratch/nr_v2x_ngsim_deepc_closed_loop_deepc.cc:2948-2958 | Request numbers are 0, 1, 2, … without gaps, each with a full history whose last power is the previous command. |
| ControlLoop.PowerStaysInBounds | scratch/nr_v2x_ngsim_deepc_closed_loop_deepc.cc:2761-2764 | Whatever the controller answers, the power in force stays within a billionth of the bounds. |
| ControlLoop.PowerFollowsResponses | scratch/nr_v2x_ngsim_deepc_closed_loop_deepc.cc:2736-2786 | In every run the power changes only at a step that sends a request, and then to the power of its response if that is a success within a billionth of the bounds. |
| ControlProgress.StepsByTime | scratch/nr_v2x_ngsim_deepc_closed_loop_deepc.cc:2922-2974 | At any time of the evaluation exactly one bridge step has run per period since the first was due, each has pushed a sample, and each with a full history has sent a request. |
| ControlProgress.SamplesByTime | scratch/nr_v2x_ngsim_deepc_closed_loop_deepc.cc:1327-1351 | Exactly one sample has been taken per period since the start. |
| ControlProgress.NothingBefore | scratch/nr_v2x_ngsim_deepc_closed_loop_deepc.cc:3737-3763 | Before the first bridge step is due, and if the evaluation ends before that, nothing is requested. |
| ControlProgress.EveryTimeIsReached | scratch/nr_v2x_ngsim_deepc_closed_loop_deepc.cc:2960-2974 | Whatever the responses, the loops reach every time. |
| Controller.CheckSolution | scripts/deepc_osqp_file_controller.py:292-309 | A plan passes exactly when it has powers, every planned value is finite, every power is within the limits and their slack, and the greatest residual as the language computes it does not exceed the tolerance. |
| Controller.MaxOf | scripts/deepc_osqp_file_controller.py:302-308 | The greatest value of a list under comparisons that are false for values that are not numbers: one at the front hides the rest. |
| Controller.FirstResidualDecides | scripts/deepc_osqp_file_controller.py:302-309 | A plan that passes keeps the residual tolerance if its first residual is a number; otherwise the check ignores the other residuals. |
| Controller.Solve | scripts/deepc_osqp_file_controller.py:197-263 | For any request and solver result the checks leave the first power of a plan that passes, and otherwise the previous power with an empty plan and a named error. |
| Controller.ForecastContext | scripts/deepc_osqp_file_controller.py:185-195 | Every forecast step holds the last vehicle count of the flattened history and the fixed beacon interval. |
| Controller.ForecastHoldsNewest | scripts/deepc_osqp_file_controller.py:185-195 | If the context was flattened from rows of count and interval, every forecast step holds the count of the newest row. |
| Controller.ReadableIff | scripts/deepc_osqp_file_controller.py:267-286 | A request is accepted if and only if its horizons and columns are those built in and each signal is a history of twenty flattened rows of its width. |
| Reply.Dump | scripts/deepc_osqp_file_controller.py:54-59 | The strict printer writes every field in order, or refuses exactly if some number is not finite. |
| Reply.Serve | scripts/deepc_osqp_file_controller.py:197-345 | From request to response: the fields written are those of the outcome with its predictions, diagnostics and forecast, or nothing where the program stops. |
| Reply.AnsweredIff | scripts/deepc_osqp_file_controller.py:250-345 | A response appears if and only if the objective and all residuals reported are finite, whether or not the plan passed its check (and a plan that passed predicts something). |
| Reply.ReportIsPrintable | scripts/deepc_osqp_file_controller.py:319-345 | Every response that appears is a printable object carrying the verdict and the text of the power. |
| Reply.PlanTakesEffectIff | scratch/nr_v2x_ngsim_deepc_closed_loop_deepc.cc:2736-2764 | For every request and solver result, through printing, extraction and the second check: there is a power in force afterwards if and only if the request is answered, namely the first one planned if the plan passes and that power is in the simulator's bounds, and otherwise the power before. |
| Reply.MissingFieldsChangeNothing | scratch/nr_v2x_ngsim_deepc_closed_loop_deepc.cc:2736-2764 | Whatever a response says, without a verdict or a power in it the power before stays in force. |
| Reply.ReportedSuccessKeepsTolerances | scripts/deepc_osqp_file_controller.py:292-309 | A success that is reported keeps the power limits with their slack, and all its residuals are numbers within tolerance. |
| Readings.PredictionsAreRead | scratch/nr_v2x_ngsim_deepc_closed_loop_deepc.cc:2755-2757 | Unless the status mimics the key, the predictions extracted from a response are the first row of an accepted plan, and none if the plan was refused. |
| Readings.DiagnosticsAreRead | scratch/nr_v2x_ngsim_deepc_closed_loop_deepc.cc:2749-2754 | Likewise the objective and the residuals extracted are those of an evaluated plan, and the time of the solve is always extracted. |
| Readings.AcceptedPlanIsRead | scratch/nr_v2x_ngsim_deepc_closed_loop_deepc.cc:2747-2757 | For every accepted plan that is answered, each of these nine fields is extracted with its own value. |
| Readings.RequestIsNamed | scripts/deepc_osqp_file_controller.py:319-321 | The number and the time of the request are extracted from every response. |
| Readings.ListsAreReported | scripts/deepc_osqp_file_controller.py:310-345 | The powers of an accepted plan and its predictions over the horizon are written whole and in order. |
| Readings.ContextIsReported | scripts/deepc_osqp_file_controller.py:337-344 | The forecast of an accepted plan holds the newest vehicle count and the fixed interval over the horizon; an error message is there exactly if the plan was refused. |
| Reply.NonFiniteIsNotAnswered | scripts/deepc_osqp_file_controller.py:54-59 | Two results with residuals that are not finite, one that passes the check and one above the maximum power: neither is answered. |
| Reply.AcceptedButRefused | scratch/nr_v2x_ngsim_deepc_closed_loop_deepc.cc:2761-2764 | The two tolerances differ: with the same limits a plan over the whole horizon can be reported as success and yet be refused. |
| ClosedLoop.AnswerIsRead | scratch/nr_v2x_ngsim_deepc_closed_loop_deepc.cc:2736-2764 | The power applied after extracting verdict and power from an answer's text is the one the controller's outcome intends, and the solver's result could be answered. |
| ClosedLoop.StepKeepsInv | scratch/nr_v2x_ngsim_deepc_closed_loop_deepc.cc:2711-2786 | Every event of the simulator, every file operation of either process and the end of the controller keep requests, texts, answers and powers in step. |
| ClosedLoop.PowerFollowsPlans | scratch/nr_v2x_ngsim_deepc_closed_loop_deepc.cc:2711-2786 | In every interleaving each request answered has finite diagnostics, and the power in force after command k is the first power of the plan computed for request k, if that plan passes and the power is in the simulator's bounds, and otherwise the power before it. |
| ClosedLoop.SolveEndsIff | scripts/deepc_osqp_file_controller.py:424-455 | A solve ends in an answer exactly if the diagnostics reported are finite, and in the end of the controller exactly if not. |
| ClosedLoop.CrashIsFinal | scratch/nr_v2x_ngsim_deepc_closed_loop_deepc.cc:2718-2728 | Once the controller has ended, no step of either process is possible: the simulator waits for a response that never comes. |
| ClosedLoop.PowerInForce | scratch/nr_v2x_ngsim_deepc_closed_loop_deepc.cc:2946-2970 | The radios use the initial power or the one after the last command, always in bounds, and one request was logged per response read. |
| ClosedLoop.EventCanFinish | scratch/nr_v2x_ngsim_deepc_closed_loop_deepc.cc:2711-2786 | Unless the controller has ended or used up its limit, if the next request can be solved and answered, some run of the two processes works off the next event of the simulator. |
| Workers.StepKeepsInv | test.py:1075-1159 | Every queue operation of any thread keeps the invariant, with an interrupt at any moment. |
| Workers.EveryRunKeepsInv | test.py:1612-1674 | Every interleaving keeps every dispatched job in exactly one place and the pills behind the jobs. |
| Workers.NeverStuck | test.py:1926-1958 | With at least one worker some step is possible until all workers are joined: nobody blocks forever. |
| Workers.RunsAreBounded | test.py:1075-1159 | Every run ends within six steps per job, two per worker and two more. |
| Workers.JoinedMeansAllReported | test.py:2102-2109 | After the join each job has exactly one result and every worker has ended. |
| Workers.CollectResults | test.py:1940-1991 | The loop computes the verdict, zero exactly when every result is uninterrupted, skipped or return code zero. |
| Workers.AllSucceededIff | test.py:2218-2221 | Passed and skipped jobs number all of them exactly when every job succeeded. |
| Workers.VerdictOfRun | test.py:2218-2221 | In every run that has joined, the verdict is zero if and only if every dispatched job was reported and ended uninterrupted, skipped or with return code zero. |
| Workers.InterruptIsObeyed | test.py:1075-1159 | After an interrupt only the jobs then running still get a result of their own: these and the results already there stay as many in every run that follows. |
| Gather.StaticInformation.DoGather | utils/print-introspected-doxygen.cc:447-531 | The walk appends what its specification says and leaves path and stack as they were, on cyclic graphs too. |
| ConfigGraph.EdgesIff | utils/print-introspected-doxygen.cc:457-529 | An edge leads from one type to another exactly if an attribute points to it and it is not the bare object, or a container attribute holds it, or it is a registered child, or an aggregation joins the two, with the label of that case. |
| ConfigGraph.EdgesInOrder | utils/print-introspected-doxygen.cc:457-529 | Attributes come first, then children in the order of registration, then aggregations. |
| ConfigGraph.PathTextsJoin | utils/print-introspected-doxygen.cc:360-370 | The text of a path is that of its parts, one after the other. |
| Gather.StaticInformation.Follow | utils/print-introspected-doxygen.cc:476-480 | One edge is walked with its label and type pushed and popped. |
| Gather.StaticInformation.Gather | utils/print-introspected-doxygen.cc:439-445 | The record is what the walk appended: the sorting and thinning at the end happens in the helper's own copy. |
| Records.Uniquefy | utils/print-introspected-doxygen.cc:423-429 | The helper's copy ends up strictly increasing with the same members. |
| Records.UniquedIsIdleIff | utils/print-introspected-doxygen.cc:423-429 | Sorting and thinning leave a container alone exactly if it is already strictly increasing. |
| Records.TextBelowIff | utils/print-introspected-doxygen.cc:423-429 | Paths are ordered at the first character where they differ, and a proper beginning of a path comes before it. |
| ConfigPaths.PathsAreSimple | utils/print-introspected-doxygen.cc:451-454 | The walk takes exactly the edge paths that visit no type twice. |
| ConfigPaths.PathsInOrder | utils/print-introspected-doxygen.cc:447-531 | The walk takes its paths in lexicographic order of edge numbers. |
| ConfigPaths.PathBelowIff | utils/print-introspected-doxygen.cc:447-531 | Paths are ordered at the first edge where they part, and a path comes before its extensions. |
| ConfigPaths.PathsAreDistinct | utils/print-introspected-doxygen.cc:447-531 | No edge path is taken twice. |
| ConfigPaths.RecordIsSimplePaths | utils/print-introspected-doxygen.cc:379-391 | The walk appends one entry per simple edge path from the root, naming its end and its labels. |
| ConfigGraph.RecordNamesIff | utils/print-introspected-doxygen.cc:447-531 | The record of a type names exactly the ends of chains of such links through different types, under the labels of the chain. |
| ConfigGraph.RecordNamesNeighbours | utils/print-introspected-doxygen.cc:447-531 | In particular every other type linked to it, under the label of the link. |
| ConfigPaths.RecordRepeatsIff | utils/print-introspected-doxygen.cc:379-391 | The record has no repetitions if and only if different simple paths always differ in their end or in the text of their labels. |
| ConfigPaths.RecordStaysIff | utils/print-introspected-doxygen.cc:423-445 | Sorting and thinning would have left the record alone if and only if the entries of simple paths are ordered as the paths are. |
| ConfigPaths.RecordKeepsRepetitions | utils/print-introspected-doxygen.cc:423-445 | Two types aggregated from both ends: the record keeps an entry twice, the helper's copy does not. |
| ConfigLabels.TextTellsLabels | utils/print-introspected-doxygen.cc:360-370 | If names hold no slash, the text of a path determines its labels, the index suffix of containers included. |
| ConfigLabels.RecordRepeatsIffTwin | utils/print-introspected-doxygen.cc:379-391 | If names hold no slash and equal labels of a type lead to the same type, the record repeats an entry if and only if a type on some simple path has the same edge twice to a type not on it. |
| ConfigLabels.LowerStepIsUnsorted | utils/print-introspected-doxygen.cc:423-445 | A simple path that steps to a type with a smaller number makes the record unsorted. |
| Dependencies.RoundLoads | bindings/python/ns__init__.py:432-443 | With closed, acyclic dependencies some pending library can always be loaded. |
| Dependencies.BlockedMeansCycle | bindings/python/ns__init__.py:432-443 | If every pending library is blocked there is a cycle. |
| Dependencies.OrderFinishesIff | bindings/python/ns__init__.py:445-460 | The rounds end if and only if the dependencies are closed and acyclic. |
| Dependencies.RoundsEndIff | bindings/python/ns__init__.py:445-460 | After some number of rounds nothing is pending if and only if the dependencies are closed and acyclic. |
| Dependencies.UnorderedNeverEnds | bindings/python/ns__init__.py:445-460 | Without an order something is pending after any number of rounds. |
| Dependencies.CycleNeverEnds | bindings/python/ns__init__.py:445-460 | Two libraries that need each other, or one that needs an unknown library, stay pending for ever. |
| Dependencies.OrderIsSound | bindings/python/ns__init__.py:445-460 | The order is a permutation with every library after all its dependencies. |
| Dependencies.ModulesThatCanBeLoaded | bindings/python/ns__init__.py:432-443 | Exactly the pending libraries whose dependencies are all in place, in order. |
| Dependencies.RoundsKeepOrder | bindings/python/ns__init__.py:432-460 | A round takes the libraries that can be loaded in the order they are pending in, and leaves the others in theirs. |
| Dependencies.DependencyOrder | bindings/python/ns__init__.py:445-460 | The recursion ends and its rounds flatten to the order. |
| Dependencies.SortToDependencies | bindings/python/ns__init__.py:421-467 | The sorted list is a permutation of the libraries, dependencies first. |
| StyleFix.CheckManuallyFile | utils/check-style-clang-format.py:505-567 | The verdict is that of the full scan whatever the flags; the file changes only in fix mode, line by line outside guarded regions of the original file. |
| StyleFix.FixThenCheck | utils/check-style-clang-format.py:505-567 | After a fix pass the same check reports compliant. |
| StyleFix.FixedFilePasses | utils/check-style-clang-format.py:530-567 | The file written by a fix pass passes the check when read again. |
| StyleFix.FixEnablesNoMore | utils/check-style-clang-format.py:535-549 | Fixing can disable more lines than before, never fewer. |
| StyleFix.ExpandKeepsGuard | utils/check-style-clang-format.py:654-686 | Tab expansion keeps a guard line a guard line. |
| StyleFix.TabHidesGuard | utils/check-style-clang-format.py:654-686 | Tab expansion can turn an ordinary line into a guard. |
| StyleFix.TabsKeepWhitespace | utils/check-style-clang-format.py:654-686 | Expanding tabs never brings back trailing whitespace. |
| StyleFix.WidthIsColumn | utils/check-style-clang-format.py:654-686 | Without a line break the width of the expanded text is the column reached. |
| StyleFix.TabEndsAtStop | utils/check-style-clang-format.py:654-686 | A tab becomes one to four spaces, after which the text goes on at a multiple of the tab size. |
| StyleFix.BreakRestarts | utils/check-style-clang-format.py:654-686 | A line break is kept and the columns start again after it. |
| StyleFix.EnabledIff | utils/check-style-clang-format.py:535-549 | Formatting is enabled at a line if and only if every earlier line that disables it is followed by one that enables it. |
| StyleFix.UncheckedIff | utils/check-style-clang-format.py:535-549 | A line is left alone if and only if it is no guard itself and some guard before it disables formatting with none after that to enable it. |
| StyleFix.WhitespaceOkIff | utils/check-style-clang-format.py:621-651 | A line passes the whitespace check if and only if it ends in a line break with no whitespace before it. |
| StyleFix.FixTrims | utils/check-style-clang-format.py:621-651 | Fixing it takes nothing but whitespace off the end. |
| StyleFix.BothPassesAgree | utils/check-style-clang-format.py:344-366 | The whitespace pass followed by the tab pass satisfies both checks. |
| ActiveWindow.FindActiveWindowCandidates | scripts/preprocess_ngsim.py:222-266 | The candidates are exactly the valid windows, each once with its true sum, in the order of falling sums and, among equal sums, rising starts. |
| ActiveWindow.FoundIff | scripts/preprocess_ngsim.py:222-266 | A valid window is a stretch of rows of the full length whose counts all lie from the lower to the upper bound and whose times are 100 ms apart; it starts and ends at the times of its ends. |
| ActiveWindow.CollectWindows | scripts/preprocess_ngsim.py:248-264 | The run-splitting loop collects every valid window and nothing else. |
| ActiveWindow.AddRun | scripts/preprocess_ngsim.py:232-246 | A closed run contributes exactly its windows, with prefix differences as sums. |
| ActiveWindow.WindowIff | scripts/preprocess_ngsim.py:248-264 | A row starts a window if and only if all its grid samples exist with allowed counts and no stray sample lies between; on one grid the latter always holds. |
| ActiveWindow.StrayHidesWindow | scripts/preprocess_ngsim.py:248-264 | A sample halfway between two grid samples hides their window. |
| ActiveWindow.RankedStrictly | scripts/preprocess_ngsim.py:265 | Windows are ranked strictly by sum, then earlier start. |
| Hankel.HistoryWalksIff | scripts/closed_loop_classical_deepc.py:137-138 | Updating past column i with the first block of future column i gives past column i + 1 if and only if the horizons are both positive or both zero, or the blocks are empty. |
| Hankel.NoFutureBreaksWalk | scripts/closed_loop_classical_deepc.py:137-138 | With a past of one row and no future the walk fails. |
| Hankel.BuildHankelBlocks | scripts/build_hankel_dataset.py:139-180 | The columns of inputs, outputs and contexts are the consecutive windows with their start times, refused exactly when the data are too short or no horizon is positive. |
| Hankel.ColumnsWalk | scripts/build_hankel_dataset.py:158-168 | In the built matrices each past column is the update of the one before. |
| Hankel.Rollout | scripts/closed_loop_classical_deepc.py:376-451 | For any solver results the histories are the newest rows of the recorded ones followed by the applied ones. |
| Hankel.WindowMoves | scripts/closed_loop_classical_deepc.py:137-138 | A window updated with the next row is the next window. |

## Left out

- Radios.VehiclePool.AssignVehicleToPool: the abort when the dynamic pool is disabled, because only the dynamic mode is modelled; the static mode gives every vehicle its own radio.
- CamApp.CamApplication.StartApplication: sockets, the CAM, BTP and GeoNet services and the desynchronisation delay are library calls; only the flags, the vehicle and the counter are kept.
- Mobility.PoolMobility.AssignVehicle: the shared pointer to the rows is a value here, because tracks never change during a run; course-change notifications are not modelled.
- KpiLog.KpiLogger.LogTx: the distances stored per eligible receiver and the square root are dropped, since only membership is used; range is compared on squares.
- KpiLog.KpiLogger.TakeSample: the per-transmission means, the active-vehicle count, the progress line and the CSV row are output only; the reception-interval mean is kept as sum and count.
- KpiRun.TransmitKeepsRun: the eligible set of a step is any set of vehicles, which covers every position the radios may have.
- Schedule.ComputePeakActiveCount: the second count, over the core region, is only reported.
- Schedule.AssignInitialDynamicPoolVehicles: the invalid vehicle id used as a marker is an absent option here, so a track with that very id is not modelled.
- CbrLog.CbrLogger.RecordChannelOccupied: contexts are kept in order of first use instead of sorted, and how a radio is read out of a context path is a parameter.
- CbrLog.CbrLogger.ComputeCbr: the sensing-based ratio next to it is pruned the same way and would add only easy members.
- JsonFields.ExtractJsonNumber: the conversion of the number text to a double, and lone surrogates in Python strings.
- JsonFields.ExtractNumberIsTarget: speaks of the number's text for the same reason; `Reply.Codec` takes the conversion as a parameter.
- ClosedLoop.PowerFollowsPlans: how a request is printed and parsed is arbitrary, and so is the solver's result; the text written for a power is assumed to be converted back to that power.
- Reply.Serve: the wording of error messages and the time of a solve are parameters; the log files written after the response are not modelled.
- BridgeRuns.BusyIsNeverStuck: response and idle timeouts, stale files of earlier runs and the end of either process are left out of this machine; `ClosedLoop` adds the one the controller brings about itself, a response that cannot be printed.
- ControlLoop.DeepcFileBridge.RequestControl: the beacon interval is fixed by the experiment and left out, as are the metrics inside a sample other than time and power.
- Controller.Solve: normalisation, the quadratic program and its timing; the solver's result is arbitrary. A request without one of its fields fails like one with a wrong field.
- Workers.CollectResults: the counting of interrupted jobs is modelled, the XML report, name lists and per-job output are not; a worker does not crash.
- Gather.StaticInformation.DoGather: how attributes reveal their checker is given as data, and every type mentioned is assumed to be registered.
- Dependencies.SortToDependencies: reading linked libraries from files; endless recursion is shown as rounds that never end, without the interpreter's depth limit.
- StyleFix.CheckManuallyFile: the include-prefix rule and clang-format itself depend on the file system and an external tool; the wording of reports is dropped.
- ActiveWindow.FindActiveWindowCandidates: sorting the counts by time and the conversion of the duration to a number of samples are library work; times are assumed distinct.
- PoolSizing.ValidatedBoundsPeak: the rounding of time stamps to sample indices, and the filtering and interpolation of tracks before it, of which only the result is assumed.
- Hankel.Rollout: normalisation, column selection and the numerical solver; solver results are arbitrary rows of the right width.
- Floating-point rounding anywhere: times are integers and quantities are reals.
- The data-set generation program repeats the same pool, log and mobility code and is modelled once.
- Radio and core-network setup, latitude, longitude and heading encoding, plotting and file loading are not part of this model.
