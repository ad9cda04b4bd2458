/**
  The test driver's thread pool: the main thread dispatches jobs and then one
  poison pill per worker, collects as many results as it dispatched jobs,
  and joins the workers; an interrupt may arrive at any moment. The machine
  interleaves the queue operations of all threads in any way.
 */
module Workers {
  datatype Job = Job(name: nat, skip: bool)

  datatype Item = Task(job: Job) | Pill

  /** An interrupted job comes back marked as a break. */
  datatype Outcome = Interrupted | Skipped | Returned(code: int)

  datatype Result = Result(job: Job, outcome: Outcome)

  datatype Worker = Fetching | Got(job: Job) | Running(job: Job) | Exited

  /** `todo` are the jobs still to dispatch, `pills` the pills sent; `dispatched` only observes the run. */
  datatype State = State(
    todo: seq<Job>, pills: nat, input: seq<Item>, output: seq<Result>, collected: seq<Result>,
    workers: seq<Worker>, interrupt: bool, joined: bool, dispatched: seq<Job>)

  datatype Step =
    | Dispatch | SendPill | Collect | Join
    | Get(worker: nat) | Decide(worker: nat) | Finish(worker: nat, code: int)
    | Interrupt

  function Initial(jobs: seq<Job>, n: nat): State {
    State(jobs, 0, [], [], [], seq(n, i => Fetching), false, false, [])
  }

  // ----- Steps -----

  ghost predicate Enabled(s: State, step: Step) {
    match step
    case Dispatch => s.todo != []
    case SendPill => s.todo == [] && s.pills < |s.workers|
    case Collect => s.todo == [] && s.pills == |s.workers| && |s.collected| < |s.dispatched| && s.output != []
    case Join =>
      && s.todo == [] && s.pills == |s.workers| && |s.collected| == |s.dispatched| && !s.joined
      && forall i :: 0 <= i < |s.workers| ==> s.workers[i].Exited?
    case Get(i) => i < |s.workers| && s.workers[i].Fetching? && s.input != []
    case Decide(i) => i < |s.workers| && s.workers[i].Got?
    case Finish(i, _) => i < |s.workers| && s.workers[i].Running?
    case Interrupt => !s.interrupt
  }

  ghost function Next(s: State, step: Step): State
    requires Enabled(s, step)
  {
    match step
    case Dispatch => s.(todo := s.todo[1..], input := s.input + [Task(s.todo[0])], dispatched := s.dispatched + [s.todo[0]])
    case SendPill => s.(pills := s.pills + 1, input := s.input + [Pill])
    case Collect => s.(output := s.output[1..], collected := s.collected + [s.output[0]])
    case Join => s.(joined := true)
    case Get(i) =>
      s.(input := s.input[1..],
         workers := s.workers[i := Taking(s.input[0])])
    case Decide(i) =>
      var job := s.workers[i].job;
      if s.interrupt then Reports(s, i, Result(job, Interrupted))
      else if job.skip then Reports(s, i, Result(job, Skipped))
      else s.(workers := s.workers[i := Running(job)])
    case Finish(i, code) => Reports(s, i, Result(s.workers[i].job, Returned(code)))
    case Interrupt => s.(interrupt := true)
  }

  function Reports(s: State, i: nat, r: Result): State
    requires i < |s.workers|
  {
    s.(output := s.output + [r], workers := s.workers[i := Fetching])
  }

  ghost predicate Reaches(jobs: seq<Job>, n: nat, steps: seq<Step>, s: State)
    decreases |steps|, 0
  {
    if steps == [] then s == Initial(jobs, n) else ReachesBy(jobs, n, steps[..|steps| - 1], steps[|steps| - 1], s)
  }

  ghost predicate ReachesBy(jobs: seq<Job>, n: nat, steps: seq<Step>, last: Step, s: State)
    decreases |steps|, 1
  {
    exists before :: Reaches(jobs, n, steps, before) && Leads(before, last, s)
  }

  ghost predicate Leads(before: State, step: Step, s: State) {
    Enabled(before, step) && Next(before, step) == s
  }

  // ----- Where a job is -----

  /** How often a job occurs in a list of jobs, in the queue, at the workers, and among results. */
  function Times(jobs: seq<Job>, job: Job): nat {
    if jobs == [] then 0 else Times(jobs[..|jobs| - 1], job) + if jobs[|jobs| - 1] == job then 1 else 0
  }

  function Queued(input: seq<Item>, job: Job): nat {
    if input == [] then 0 else Queued(input[..|input| - 1], job) + if input[|input| - 1] == Task(job) then 1 else 0
  }

  function Busy(workers: seq<Worker>, job: Job): nat {
    if workers == [] then 0 else Busy(workers[..|workers| - 1], job) + BusyWith(workers[|workers| - 1], job)
  }

  function BusyWith(w: Worker, job: Job): nat {
    if w == Got(job) || w == Running(job) then 1 else 0
  }

  function Reported(results: seq<Result>, job: Job): nat {
    if results == [] then 0 else Reported(results[..|results| - 1], job) + if results[|results| - 1].job == job then 1 else 0
  }

  function Pills(input: seq<Item>): nat {
    if input == [] then 0 else Pills(input[..|input| - 1]) + if input[|input| - 1].Pill? then 1 else 0
  }

  function ExitedCount(workers: seq<Worker>): nat {
    if workers == [] then 0 else ExitedCount(workers[..|workers| - 1]) + if workers[|workers| - 1].Exited? then 1 else 0
  }

  function BusyCount(workers: seq<Worker>): nat {
    if workers == [] then 0
    else BusyCount(workers[..|workers| - 1]) + if workers[|workers| - 1].Got? || workers[|workers| - 1].Running? then 1 else 0
  }

  /** Steps a worker still has to take with its job. */
  function Effort(workers: seq<Worker>): nat {
    if workers == [] then 0 else Effort(workers[..|workers| - 1]) + EffortOf(workers[|workers| - 1])
  }

  function EffortOf(w: Worker): nat {
    if w.Got? then 3 else if w.Running? then 2 else 0
  }

  lemma {:induction false} TakeItem(input: seq<Item>, job: Job)
    requires input != []
    ensures Queued(input, job) == (if input[0] == Task(job) then 1 else 0) + Queued(input[1..], job)
    ensures Pills(input) == (if input[0].Pill? then 1 else 0) + Pills(input[1..])
  {
    var init := input[..|input| - 1];
    if |input| == 1 {
      assert init == input[1..] == [];
    } else {
      TakeItem(init, job);
      assert init[1..] == input[1..][..|input| - 2] && init[0] == input[0];
    }
  }

  lemma PutItem(input: seq<Item>, x: Item, job: Job)
    ensures Queued(input + [x], job) == Queued(input, job) + if x == Task(job) then 1 else 0
    ensures Pills(input + [x]) == Pills(input) + if x.Pill? then 1 else 0
  {
    assert (input + [x])[..|input|] == input;
  }

  lemma PutJob(jobs: seq<Job>, x: Job, job: Job)
    ensures Times(jobs + [x], job) == Times(jobs, job) + if x == job then 1 else 0
  {
    assert (jobs + [x])[..|jobs|] == jobs;
  }

  lemma {:induction false} SetWorker(workers: seq<Worker>, i: nat, w: Worker, job: Job)
    requires i < |workers|
    ensures Busy(workers[i := w], job) + BusyWith(workers[i], job) == Busy(workers, job) + BusyWith(w, job)
    ensures ExitedCount(workers[i := w]) + (if workers[i].Exited? then 1 else 0) == ExitedCount(workers)
        + if w.Exited? then 1 else 0
  {
    var last := |workers| - 1;
    if i == last {
      assert workers[i := w][..last] == workers[..last];
    } else {
      SetWorker(workers[..last], i, w, job);
      assert workers[i := w][..last] == workers[..last][i := w];
    }
  }

  lemma {:induction false} SetWorkerCounts(workers: seq<Worker>, i: nat, w: Worker)
    requires i < |workers|
    ensures BusyCount(workers[i := w]) + (if workers[i].Got? || workers[i].Running? then 1 else 0)
         == BusyCount(workers) + if w.Got? || w.Running? then 1 else 0
    ensures Effort(workers[i := w]) + EffortOf(workers[i]) == Effort(workers) + EffortOf(w)
  {
    var last := |workers| - 1;
    if i == last {
      assert workers[i := w][..last] == workers[..last];
    } else {
      SetWorkerCounts(workers[..last], i, w);
      assert workers[i := w][..last] == workers[..last][i := w];
    }
  }

  lemma {:induction false} NobodyBusy(workers: seq<Worker>, job: Job)
    ensures BusyCount(workers) == 0 <==> forall i :: 0 <= i < |workers| ==> workers[i].Fetching? || workers[i].Exited?
    ensures BusyCount(workers) == 0 ==> Busy(workers, job) == 0
  {
    if workers != [] {
      NobodyBusy(workers[..|workers| - 1], job);
      assert forall i :: 0 <= i < |workers| - 1 ==> workers[i] == workers[..|workers| - 1][i];
    }
  }

  lemma {:induction false} OnlyPills(input: seq<Item>, job: Job)
    ensures Pills(input) <= |input|
    ensures Pills(input) == |input| <==> forall i :: 0 <= i < |input| ==> input[i].Pill?
    ensures Pills(input) == |input| ==> Queued(input, job) == 0
  {
    if input != [] {
      OnlyPills(input[..|input| - 1], job);
      assert forall i :: 0 <= i < |input| - 1 ==> input[i] == input[..|input| - 1][i];
    }
  }

  lemma {:induction false} ExitedAtMost(workers: seq<Worker>)
    ensures ExitedCount(workers) <= |workers|
    ensures ExitedCount(workers) == |workers| <==> forall i :: 0 <= i < |workers| ==> workers[i].Exited?
  {
    if workers != [] {
      ExitedAtMost(workers[..|workers| - 1]);
      assert forall i :: 0 <= i < |workers| - 1 ==> workers[i] == workers[..|workers| - 1][i];
    }
  }

  lemma {:induction false} TakeResult(results: seq<Result>, job: Job)
    requires results != []
    ensures Reported(results, job) == (if results[0].job == job then 1 else 0) + Reported(results[1..], job)
  {
    var init := results[..|results| - 1];
    if |results| == 1 {
      assert init == results[1..] == [];
    } else {
      TakeResult(init, job);
      assert init[1..] == results[1..][..|results| - 2] && init[0] == results[0];
    }
  }

  lemma PutResult(results: seq<Result>, r: Result, job: Job)
    ensures Reported(results + [r], job) == Reported(results, job) + if r.job == job then 1 else 0
  {
    assert (results + [r])[..|results|] == results;
  }

  // ----- The invariant -----

  /** Every dispatched job is in exactly one place: queued, at a worker, or reported. */
  ghost predicate Conserved(dispatched: seq<Job>, input: seq<Item>, workers: seq<Worker>, output: seq<Result>,
      collected: seq<Result>) {
    forall job :: Times(dispatched, job)
               == Queued(input, job) + Busy(workers, job) + Reported(output, job) + Reported(collected, job)
  }

  ghost predicate LengthsOk(s: State) {
    |s.dispatched| + Pills(s.input) == |s.input| + BusyCount(s.workers) + |s.output| + |s.collected|
  }

  /** Pills come last in the queue, each is still there or has ended one worker, and only then do workers end. */
  ghost predicate PillsOk(todo: seq<Job>, pills: nat, input: seq<Item>, workers: seq<Worker>) {
    && pills <= |workers| && (pills > 0 ==> todo == [])
    && pills == Pills(input) + ExitedCount(workers)
    && (forall i, j :: 0 <= i < j < |input| && input[i].Pill? ==> input[j].Pill?)
    && (ExitedCount(workers) > 0 ==> forall i :: 0 <= i < |input| ==> input[i].Pill?)
  }

  ghost predicate Honest(r: Result) {
    match r.outcome
    case Interrupted => true
    case Skipped => r.job.skip
    case Returned(_) => !r.job.skip
  }

  ghost predicate ResultsOk(output: seq<Result>, collected: seq<Result>, workers: seq<Worker>) {
    && (forall r :: r in output ==> Honest(r)) && (forall r :: r in collected ==> Honest(r))
    && (forall i :: 0 <= i < |workers| && workers[i].Running? ==> !workers[i].job.skip)
  }

  ghost predicate JoinedOk(s: State) {
    s.joined ==> s.todo == [] && |s.collected| == |s.dispatched| && ExitedCount(s.workers) == |s.workers|
  }

  ghost predicate Inv(jobs: seq<Job>, n: nat, s: State) {
    && s.dispatched + s.todo == jobs && |s.workers| == n
    && Conserved(s.dispatched, s.input, s.workers, s.output, s.collected)
    && PillsOk(s.todo, s.pills, s.input, s.workers)
    && ResultsOk(s.output, s.collected, s.workers)
    && LengthsOk(s) && JoinedOk(s)
  }

  lemma {:induction false} InitialWorkers(n: nat, job: Job)
    ensures Busy(seq(n, i => Fetching), job) == 0 && ExitedCount(seq(n, i => Fetching)) == 0
    ensures BusyCount(seq(n, i => Fetching)) == 0 && Effort(seq(n, i => Fetching)) == 0
  {
    if n > 0 {
      InitialWorkers(n - 1, job);
      assert seq(n, i => Fetching)[..n - 1] == seq(n - 1, i => Fetching);
    }
  }

  lemma InitialInv(jobs: seq<Job>, n: nat)
    ensures Inv(jobs, n, Initial(jobs, n))
  {
    forall job ensures Busy(Initial(jobs, n).workers, job) == 0 && ExitedCount(Initial(jobs, n).workers) == 0 {
      InitialWorkers(n, job);
    }
    InitialWorkers(n, Job(0, false));
  }

  lemma {:induction false} NoPills(input: seq<Item>)
    ensures Pills(input) == 0 <==> forall i :: 0 <= i < |input| ==> input[i].Task?
  {
    if input != [] {
      NoPills(input[..|input| - 1]);
      assert forall i :: 0 <= i < |input| - 1 ==> input[i] == input[..|input| - 1][i];
    }
  }

  lemma DispatchKeepsInv(jobs: seq<Job>, n: nat, s: State)
    requires Inv(jobs, n, s) && Enabled(s, Dispatch)
    ensures Inv(jobs, n, Next(s, Dispatch))
  {
    hide ResultsOk, Times, Queued, Busy, Reported, Pills, ExitedCount;
    var x, t := s.todo[0], Next(s, Dispatch);
    assert s.dispatched + s.todo == s.dispatched + [x] + s.todo[1..];
    forall job ensures Times(t.dispatched, job) == Queued(t.input, job) + Busy(t.workers, job)
        + Reported(t.output, job) + Reported(t.collected, job) {
      PutItem(s.input, Task(x), job);
      PutJob(s.dispatched, x, job);
    }
    PutItem(s.input, Task(x), x);
    NoPills(s.input);
    NoPills(t.input);
  }

  lemma PillKeepsInv(jobs: seq<Job>, n: nat, s: State)
    requires Inv(jobs, n, s) && Enabled(s, SendPill)
    ensures Inv(jobs, n, Next(s, SendPill))
  {
    hide ResultsOk, Times, Queued, Busy, Reported, Pills, ExitedCount;
    forall job ensures Queued(s.input + [Pill], job) == Queued(s.input, job) && Pills(s.input + [Pill]) == Pills(s.input) + 1 {
      PutItem(s.input, Pill, job);
    }
    PutItem(s.input, Pill, Job(0, false));
  }

  lemma CollectKeepsInv(jobs: seq<Job>, n: nat, s: State)
    requires Inv(jobs, n, s) && Enabled(s, Collect)
    ensures Inv(jobs, n, Next(s, Collect))
  {
    hide PillsOk, Times, Queued, Busy, Reported, ExitedCount;
    var r := s.output[0];
    forall job ensures Reported(s.output[1..], job) + Reported(s.collected + [r], job) == Reported(s.output, job)
        + Reported(s.collected, job) {
      TakeResult(s.output, job);
      PutResult(s.collected, r, job);
    }
    assert r in s.output;
  }

  lemma JoinKeepsInv(jobs: seq<Job>, n: nat, s: State)
    requires Inv(jobs, n, s) && Enabled(s, Join)
    ensures Inv(jobs, n, Next(s, Join))
  {
    hide PillsOk, Conserved, ResultsOk, ExitedCount;
    ExitedAtMost(s.workers);
  }

  /** What a worker becomes by taking an item. */
  function Taking(x: Item): Worker {
    match x case Pill => Exited case Task(job) => Got(job)
  }

  lemma GetKeepsConserved(s: State, i: nat)
    requires Conserved(s.dispatched, s.input, s.workers, s.output, s.collected) && Enabled(s, Get(i))
    ensures Conserved(s.dispatched, s.input[1..], s.workers[i := Taking(s.input[0])], s.output, s.collected)
  {
    hide Times, Queued, Busy, Reported;
    var w := Taking(s.input[0]);
    forall job ensures Queued(s.input[1..], job) + Busy(s.workers[i := w], job) == Queued(s.input, job) + Busy(s.workers, job) {
      TakeItem(s.input, job);
      SetWorker(s.workers, i, w, job);
    }
  }

  lemma GetKeepsPills(s: State, i: nat)
    requires PillsOk(s.todo, s.pills, s.input, s.workers) && Enabled(s, Get(i))
    ensures PillsOk(s.todo, s.pills, s.input[1..], s.workers[i := Taking(s.input[0])])
  {
    hide Pills, ExitedCount;
    var job := Job(0, false);
    TakeItem(s.input, job);
    SetWorker(s.workers, i, Taking(s.input[0]), job);
  }

  lemma GetKeepsInv(jobs: seq<Job>, n: nat, s: State, i: nat)
    requires Inv(jobs, n, s) && Enabled(s, Get(i)) && !s.joined
    ensures Inv(jobs, n, Next(s, Get(i)))
  {
    hide PillsOk, Conserved;
    GetKeepsConserved(s, i);
    GetKeepsPills(s, i);
    SetWorkerCounts(s.workers, i, Taking(s.input[0]));
    TakeItem(s.input, Job(0, false));
  }

  lemma ReportKeepsConserved(s: State, i: nat, r: Result)
    requires Conserved(s.dispatched, s.input, s.workers, s.output, s.collected)
    requires i < |s.workers| && (s.workers[i] == Got(r.job) || s.workers[i] == Running(r.job))
    ensures Conserved(s.dispatched, s.input, s.workers[i := Fetching], s.output + [r], s.collected)
  {
    hide Times, Queued, Busy, Reported;
    forall job ensures Busy(s.workers[i := Fetching], job) + Reported(s.output + [r], job) == Busy(s.workers, job)
        + Reported(s.output, job) {
      PutResult(s.output, r, job);
      SetWorker(s.workers, i, Fetching, job);
    }
  }

  lemma WorkerKeepsPills(s: State, i: nat, w: Worker)
    requires PillsOk(s.todo, s.pills, s.input, s.workers) && i < |s.workers| && !s.workers[i].Exited? && !w.Exited?
    ensures PillsOk(s.todo, s.pills, s.input, s.workers[i := w])
  {
    hide Pills, ExitedCount;
    SetWorker(s.workers, i, w, Job(0, false));
  }

  lemma ReportKeepsInv(jobs: seq<Job>, n: nat, s: State, i: nat, r: Result)
    requires Inv(jobs, n, s) && i < |s.workers| && (s.workers[i] == Got(r.job) || s.workers[i] == Running(r.job))
        && Honest(r) && !s.joined
    ensures Inv(jobs, n, Reports(s, i, r))
  {
    hide PillsOk, Conserved;
    ReportKeepsConserved(s, i, r);
    WorkerKeepsPills(s, i, Fetching);
    SetWorkerCounts(s.workers, i, Fetching);
  }

  lemma RunKeepsInv(jobs: seq<Job>, n: nat, s: State, i: nat)
    requires Inv(jobs, n, s) && i < |s.workers| && s.workers[i].Got? && !s.workers[i].job.skip && !s.joined
    ensures Inv(jobs, n, s.(workers := s.workers[i := Running(s.workers[i].job)]))
  {
    hide PillsOk, Times, Queued, Busy, Reported;
    var w := Running(s.workers[i].job);
    WorkerKeepsPills(s, i, w);
    SetWorkerCounts(s.workers, i, w);
    forall job ensures Busy(s.workers[i := w], job) == Busy(s.workers, job) {
      SetWorker(s.workers, i, w, job);
    }
  }

  /** Nothing happens after the workers are joined, except an interrupt. */
  lemma JoinedIsFinal(jobs: seq<Job>, n: nat, s: State, step: Step)
    requires Inv(jobs, n, s) && Enabled(s, step) && s.joined
    ensures step == Interrupt
  {
    hide Conserved, ResultsOk, ExitedCount;
    ExitedAtMost(s.workers);
  }

  lemma StepKeepsInv(jobs: seq<Job>, n: nat, s: State, step: Step)
    requires Inv(jobs, n, s) && Enabled(s, step)
    ensures Inv(jobs, n, Next(s, step))
  {
    if s.joined {
      JoinedIsFinal(jobs, n, s, step);
    }
    hide PillsOk, Conserved, ResultsOk;
    match step
    case Dispatch => DispatchKeepsInv(jobs, n, s);
    case SendPill => PillKeepsInv(jobs, n, s);
    case Collect => CollectKeepsInv(jobs, n, s);
    case Join => JoinKeepsInv(jobs, n, s);
    case Get(i) => GetKeepsInv(jobs, n, s, i);
    case Decide(i) => DecideKeepsInv(jobs, n, s, i);
    case Finish(i, code) => FinishKeepsInv(jobs, n, s, i, code);
    case Interrupt =>
  }

  lemma DecideKeepsInv(jobs: seq<Job>, n: nat, s: State, i: nat)
    requires Inv(jobs, n, s) && Enabled(s, Decide(i)) && !s.joined
    ensures Inv(jobs, n, Next(s, Decide(i)))
  {
    hide Inv, Reports;
    var job := s.workers[i].job;
    if s.interrupt {
      ReportKeepsInv(jobs, n, s, i, Result(job, Interrupted));
    } else if job.skip {
      ReportKeepsInv(jobs, n, s, i, Result(job, Skipped));
    } else {
      RunKeepsInv(jobs, n, s, i);
    }
  }

  lemma FinishKeepsInv(jobs: seq<Job>, n: nat, s: State, i: nat, code: int)
    requires Inv(jobs, n, s) && Enabled(s, Finish(i, code)) && !s.joined
    ensures Inv(jobs, n, Next(s, Finish(i, code)))
  {
    hide PillsOk, Conserved, Reports;
    ReportKeepsInv(jobs, n, s, i, Result(s.workers[i].job, Returned(code)));
  }

  lemma {:induction false} EveryRunKeepsInv(jobs: seq<Job>, n: nat, steps: seq<Step>, s: State)
    requires Reaches(jobs, n, steps, s)
    ensures Inv(jobs, n, s)
    decreases |steps|
  {
    hide Inv, Enabled, Next, Initial;
    if steps == [] {
      InitialInv(jobs, n);
    } else {
      var step := steps[|steps| - 1];
      var before :| Reaches(jobs, n, steps[..|steps| - 1], before) && Leads(before, step, s);
      EveryRunKeepsInv(jobs, n, steps[..|steps| - 1], before);
      StepKeepsInv(jobs, n, before, step);
    }
  }

  // ----- Termination -----

  /** An upper bound on the number of steps still to come. */
  ghost function Measure(s: State): int {
    6 * |s.todo| + 2 * (|s.workers| - s.pills) + 4 * |s.input| - 3 * Pills(s.input) + Effort(s.workers) + |s.output|
    + (if s.joined then 0 else 1) + (if s.interrupt then 0 else 1)
  }

  lemma MainStepDrops(s: State, step: Step)
    requires Enabled(s, step) && !step.Get? && !step.Decide? && !step.Finish?
    ensures Measure(Next(s, step)) < Measure(s)
  {
    hide Pills, Effort, ExitedCount;
    var none := Job(0, false);
    match step
    case Dispatch => PutItem(s.input, Task(s.todo[0]), none);
    case SendPill => PutItem(s.input, Pill, none);
    case _ =>
  }

  lemma WorkerStepDrops(s: State, step: Step)
    requires Enabled(s, step) && (step.Get? || step.Decide? || step.Finish?)
    ensures Measure(Next(s, step)) < Measure(s)
  {
    hide Pills, Effort;
    SetWorkerCounts(s.workers, step.worker, Next(s, step).workers[step.worker]);
    if step.Get? {
      TakeItem(s.input, Job(0, false));
    }
  }

  lemma MeasureDrops(jobs: seq<Job>, n: nat, s: State, step: Step)
    requires Inv(jobs, n, s) && Enabled(s, step)
    ensures 0 <= Measure(Next(s, step)) < Measure(s)
  {
    hide Conserved, ResultsOk, Pills, Effort, BusyCount, ExitedCount, Next, Enabled;
    StepKeepsInv(jobs, n, s, step);
    OnlyPills(Next(s, step).input, Job(0, false));
    if step.Get? || step.Decide? || step.Finish? {
      WorkerStepDrops(s, step);
    } else {
      MainStepDrops(s, step);
    }
  }

  /** Every run ends: six steps per job and two per worker, and two more. */
  lemma {:induction false} RunsAreBounded(jobs: seq<Job>, n: nat, steps: seq<Step>, s: State)
    requires Reaches(jobs, n, steps, s)
    ensures |steps| + Measure(s) <= 6 * |jobs| + 2 * n + 2
    ensures 0 <= Measure(s)
    decreases |steps|
  {
    hide Enabled, Next, Inv;
    if steps == [] {
      InitialWorkers(n, Job(0, false));
    } else {
      var step := steps[|steps| - 1];
      var before :| Reaches(jobs, n, steps[..|steps| - 1], before) && Leads(before, step, s);
      RunsAreBounded(jobs, n, steps[..|steps| - 1], before);
      EveryRunKeepsInv(jobs, n, steps[..|steps| - 1], before);
      MeasureDrops(jobs, n, before, step);
    }
  }

  /** With a worker there is always a step to take until all workers are joined, interrupt or not. */
  lemma NeverStuck(jobs: seq<Job>, n: nat, s: State) returns (step: Step)
    requires Inv(jobs, n, s) && 0 < n && !s.joined
    ensures Enabled(s, step) && step != Interrupt
  {
    hide Conserved, ResultsOk;
    var none := Job(0, false);
    OnlyPills(s.input, none);
    NobodyBusy(s.workers, none);
    ExitedAtMost(s.workers);
    if s.todo != [] {
      step := Dispatch;
    } else if s.pills < |s.workers| {
      step := SendPill;
    } else if s.output != [] {
      step := Collect;
    } else if i :| 0 <= i < |s.workers| && s.workers[i].Got? {
      step := Decide(i);
    } else if i :| 0 <= i < |s.workers| && s.workers[i].Running? {
      step := Finish(i, 0);
    } else if i :| 0 <= i < |s.workers| && s.workers[i].Fetching? {
      step := Get(i);
      assert s.input != [];
    } else {
      step := Join;
    }
  }

  // ----- After an interrupt -----

  /** The results that are not marked as a break. */
  function Genuine(results: seq<Result>): nat {
    if results == [] then 0
    else Genuine(results[..|results| - 1]) + if results[|results| - 1].outcome.Interrupted? then 0 else 1
  }

  function RunningCount(workers: seq<Worker>): nat {
    if workers == [] then 0 else RunningCount(workers[..|workers| - 1]) + if workers[|workers| - 1].Running? then 1 else 0
  }

  lemma {:induction false} GenuineAdds(a: seq<Result>, b: seq<Result>)
    ensures Genuine(a + b) == Genuine(a) + Genuine(b)
  {
    if b == [] {
      assert a + b == a;
    } else {
      assert (a + b)[..|a + b| - 1] == a + b[..|b| - 1];
      GenuineAdds(a, b[..|b| - 1]);
    }
  }

  lemma {:induction false} GenuineOne(r: Result)
    ensures Genuine([r]) == if r.outcome.Interrupted? then 0 else 1
  {
    assert [r][..0] == [] && Genuine([]) == 0;
  }

  lemma {:induction false} RunningUpdate(workers: seq<Worker>, i: nat, w: Worker)
    requires i < |workers|
    ensures RunningCount(workers[i := w]) + (if workers[i].Running? then 1 else 0)
         == RunningCount(workers) + if w.Running? then 1 else 0
  {
    var last := |workers| - 1;
    if i < last {
      assert workers[i := w][..last] == workers[..last][i := w];
      RunningUpdate(workers[..last], i, w);
    } else {
      assert workers[i := w][..last] == workers[..last];
    }
  }

  ghost predicate Goes(s: State, path: seq<Step>, t: State)
    decreases |path|
  {
    if path == [] then s == t else Enabled(s, path[0]) && Goes(Next(s, path[0]), path[1..], t)
  }

  lemma InterruptedStep(s: State, step: Step)
    requires s.interrupt && Enabled(s, step)
    ensures var t := Next(s, step);
      && t.interrupt
      && Genuine(t.output) + Genuine(t.collected) + RunningCount(t.workers)
      == Genuine(s.output) + Genuine(s.collected) + RunningCount(s.workers)
  {
    hide Genuine, RunningCount;
    match step
    case Collect =>
      assert s.output == [s.output[0]] + s.output[1..];
      GenuineAdds([s.output[0]], s.output[1..]);
      GenuineAdds(s.collected, [s.output[0]]);
    case Get(i) => RunningUpdate(s.workers, i, Taking(s.input[0]));
    case Decide(i) =>
      RunningUpdate(s.workers, i, Fetching);
      var r := Result(s.workers[i].job, Interrupted);
      GenuineOne(r);
      GenuineAdds(s.output, [r]);
    case Finish(i, code) =>
      RunningUpdate(s.workers, i, Fetching);
      var r := Result(s.workers[i].job, Returned(code));
      GenuineOne(r);
      GenuineAdds(s.output, [r]);
    case _ =>
  }

  /**
    After an interrupt only the jobs then running still get a result of their
    own: whatever happens, these and the results there are stay as many.
   */
  lemma {:induction false} InterruptIsObeyed(s: State, path: seq<Step>, t: State)
    requires s.interrupt && Goes(s, path, t)
    ensures t.interrupt
    ensures Genuine(t.output) + Genuine(t.collected) + RunningCount(t.workers)
         == Genuine(s.output) + Genuine(s.collected) + RunningCount(s.workers)
    decreases |path|
  {
    if path != [] {
      hide Genuine, RunningCount, Enabled, Next;
      InterruptedStep(s, path[0]);
      InterruptIsObeyed(Next(s, path[0]), path[1..], t);
    }
  }

  // ----- The verdict -----

  ghost predicate Succeeded(r: Result) {
    r.outcome == Skipped || r.outcome == Returned(0)
  }

  /** When the workers are joined, each job has exactly one result and every worker has ended. */
  lemma JoinedMeansAllReported(jobs: seq<Job>, n: nat, steps: seq<Step>, s: State)
    requires Reaches(jobs, n, steps, s) && s.joined
    ensures |s.collected| == |jobs| && forall job :: Reported(s.collected, job) == Times(jobs, job)
    ensures forall r :: r in s.collected ==> Honest(r)
    ensures forall i :: 0 <= i < |s.workers| ==> s.workers[i].Exited?
  {
    EveryRunKeepsInv(jobs, n, steps, s);
    ExitedAtMost(s.workers);
    assert s.dispatched == jobs;
    OnlyPills(s.input, Job(0, false));
    forall job ensures Reported(s.collected, job) == Times(jobs, job) {
      OnlyPills(s.input, job);
      NobodyBusy(s.workers, job);
      assert Reported(s.output, job) == 0;
    }
  }

  function PassedOrSkipped(results: seq<Result>): nat {
    if results == [] then 0
    else
      var r := results[|results| - 1];
      PassedOrSkipped(results[..|results| - 1]) + if r.outcome == Skipped || r.outcome == Returned(0) then 1 else 0
  }

  lemma {:induction false} AllSucceededIff(results: seq<Result>)
    ensures PassedOrSkipped(results) <= |results|
    ensures PassedOrSkipped(results) == |results| <==> forall r :: r in results ==> Succeeded(r)
  {
    if results != [] {
      var init, last := results[..|results| - 1], results[|results| - 1];
      AllSucceededIff(init);
      assert last in results && forall r :: r in results <==> r in init || r == last by {
        assert results == init + [last];
      }
    }
  }

  ghost function Verdict(results: seq<Result>): int {
    if forall r :: r in results ==> Succeeded(r) then 0 else 1
  }

  lemma {:induction false} ReportedMeansMember(results: seq<Result>, job: Job)
    ensures Reported(results, job) > 0 <==> exists r :: r in results && r.job == job
  {
    if results != [] {
      var init, last := results[..|results| - 1], results[|results| - 1];
      ReportedMeansMember(init, job);
      assert last in results && forall r :: r in results <==> r in init || r == last by {
        assert results == init + [last];
      }
    }
  }

  lemma {:induction false} TimesMeansMember(jobs: seq<Job>, job: Job)
    ensures Times(jobs, job) > 0 <==> job in jobs
  {
    if jobs != [] {
      var init, last := jobs[..|jobs| - 1], jobs[|jobs| - 1];
      TimesMeansMember(init, job);
      assert jobs == init + [last];
    }
  }

  /** The job was reported, and always as skipped or returning zero. */
  ghost predicate EndedWell(results: seq<Result>, job: Job) {
    && (exists r :: r in results && r.job == job)
    && forall r :: r in results && r.job == job ==> r.outcome == Skipped || r.outcome == Returned(0)
  }

  /** The driver's verdict on a finished run is zero if and only if every job dispatched ended well. */
  lemma VerdictOfRun(jobs: seq<Job>, n: nat, steps: seq<Step>, s: State)
    requires Reaches(jobs, n, steps, s) && s.joined
    ensures Verdict(s.collected) == 0 <==> forall job :: job in jobs ==> EndedWell(s.collected, job)
    ensures PassedOrSkipped(s.collected) == |jobs| <==> Verdict(s.collected) == 0
  {
    hide Reaches, Reported, Times, Honest;
    JoinedMeansAllReported(jobs, n, steps, s);
    AllSucceededIff(s.collected);
    if forall job :: job in jobs ==> EndedWell(s.collected, job) {
      forall r | r in s.collected ensures Succeeded(r) {
        ReportedMeansMember(s.collected, r.job);
        TimesMeansMember(jobs, r.job);
        assert EndedWell(s.collected, r.job);
      }
    }
    if Verdict(s.collected) == 0 {
      forall job | job in jobs ensures EndedWell(s.collected, job) {
        ReportedMeansMember(s.collected, job);
        TimesMeansMember(jobs, job);
      }
    }
  }

  /** The collection loop: zero exactly when every job ended uninterrupted, skipped or with return code zero. */
  method CollectResults(results: seq<Result>) returns (code: int)
    ensures code == Verdict(results)
    ensures code == 0 <==> PassedOrSkipped(results) == |results|
  {
    var passed, skipped, failed, crashed, valgrind := 0, 0, 0, 0, 0;
    for i := 0 to |results|
      invariant passed + skipped == PassedOrSkipped(results[..i])
      invariant passed + skipped + failed + crashed + valgrind <= i
    {
      var outcome := results[i].outcome;
      assert results[..i + 1][..i] == results[..i];
      if outcome == Interrupted {
        continue;
      }
      if outcome == Skipped {
        skipped := skipped + 1;
      } else if outcome.code == 0 {
        passed := passed + 1;
      } else if outcome.code == 1 {
        failed := failed + 1;
      } else if outcome.code == 2 {
        valgrind := valgrind + 1;
      } else {
        crashed := crashed + 1;
      }
    }
    assert results[..|results|] == results;
    AllSucceededIff(results);
    code := if passed + skipped == |results| then 0 else 1;
  }
}
