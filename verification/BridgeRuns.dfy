/** What every run of the two-process bridge guarantees, and why neither process waits forever. */
module BridgeRuns {
  import opened Bridge

  // ----- What every run guarantees -----

  /** No partial file is read: the controller reads a whole request, the simulator a whole response. */
  lemma ReadsAreWhole(limit: nat, steps: seq<Step>, s: State, step: Step)
    requires Reaches(limit, steps, s) && Enabled(limit, s, step)
    ensures step.ReadRequest? ==> |s.solved| < |s.sent| && s.requests[s.ctl.pending[0]] == s.sent[|s.solved|]
    ensures step.ReadResponse? ==> s.next < |s.solved| && s.responses[Name(s.next)] == s.solved[s.next].response
  {
    EveryRunKeepsInv(limit, steps, s);
  }

  /** At most one request is unanswered, and each is solved at most once, in order. */
  lemma OneRequestAtATime(limit: nat, steps: seq<Step>, s: State)
    requires Reaches(limit, steps, s)
    ensures |s.received| <= |s.solved| <= |s.sent| <= |s.received| + 1
    ensures forall k :: 0 <= k < |s.solved| ==> s.solved[k].name == Name(k) && s.solved[k].request == s.sent[k]
  {
    EveryRunKeepsInv(limit, steps, s);
  }

  /** The response read at step `k` is the one answer ever computed for step `k`, from the request sent at step `k`. */
  lemma ResponseMatchesRequest(limit: nat, steps: seq<Step>, s: State, k: nat)
    requires Reaches(limit, steps, s) && k < |s.received|
    ensures k < |s.sent|
    ensures exists a :: a in s.solved && a.name == Name(k) && a.request == s.sent[k] && a.response == s.received[k]
    ensures forall a :: a in s.solved && a.name == Name(k) ==> a.request == s.sent[k] && a.response == s.received[k]
  {
    EveryRunKeepsInv(limit, steps, s);
    assert s.solved[k] in s.solved;
  }

  // ----- The controller's limit -----

  /** A request is only taken up while fewer than `limit` are noted. */
  ghost predicate WithinLimit(limit: nat, s: State) {
    match s.ctl
    case Polling => s.completed <= limit
    case Serving(pending) => s.completed + |pending| <= limit
    case _ => s.completed < limit
  }

  lemma StepKeepsLimit(limit: nat, s: State, step: Step)
    requires 0 < limit && Inv(s) && WithinLimit(limit, s) && Enabled(limit, s, step)
    ensures WithinLimit(limit, Next(limit, s, step))
  {
    hide RequestsOk, ResponsesOk, AnswersOk, Snapshot;
    if step.Poll? {
      SnapshotIsOne(s, step.pending);
    }
  }

  /** With a limit the controller never answers more requests; without one, or below it, every request can be answered. */
  lemma {:induction false} LimitIsKept(limit: nat, steps: seq<Step>, s: State)
    requires 0 < limit && Reaches(limit, steps, s)
    ensures |s.solved| <= limit && |s.received| <= limit && WithinLimit(limit, s)
    decreases |steps|
  {
    hide RequestsOk, ResponsesOk, AnswersOk, Enabled, Next;
    EveryRunKeepsInv(limit, steps, s);
    if steps != [] {
      var init, last := steps[..|steps| - 1], steps[|steps| - 1];
      var before :| Reaches(limit, init, before) && Leads(limit, before, last, s);
      LimitIsKept(limit, init, before);
      EveryRunKeepsInv(limit, init, before);
      StepKeepsLimit(limit, before, last);
    }
  }

  // ----- Progress -----

  /** Stages left until the response of the current step is read, then characters left to write. */
  ghost function SimulatorStages(s: State): nat {
    match s.sim
    case Idle => 0
    case Writing(_, _) => 3
    case Waiting => 2
    case Seen => 1
  }

  ghost function ControllerStages(s: State): nat {
    var own := match s.ctl
      case Polling => 6
      case Serving(pending) => if pending == [] then 7 else 5
      case Solving(_, _) => 4
      case Replying(_, _, _) => 3
      case Marking(_) => 8;
    if Replied(s) > s.next then (if s.ctl.Marking? then 2 else if s.ctl.Serving? then 1 else 0) else own
  }

  ghost function Unwritten(s: State): nat {
    (if s.sim.Writing? && s.sim.done <= |s.sim.text| then |s.sim.text| - s.sim.done else 0)
    + (if s.ctl.Replying? && s.ctl.done <= |s.ctl.text| then |s.ctl.text| - s.ctl.done else 0)
  }

  ghost predicate Closer(s: State, t: State) {
    var a, b := SimulatorStages(s) + ControllerStages(s), SimulatorStages(t) + ControllerStages(t);
    b < a || (b == a && Unwritten(t) < Unwritten(s))
  }

  lemma SimulatorGetsCloser(limit: nat, s: State, step: Step)
    requires Inv(s) && Enabled(limit, s, step) && (step.WriteRequest? || step.RenameRequest? || step.SeeResponse?)
    ensures Closer(s, Next(limit, s, step))
  {
    hide RequestsOk, AnswersOk, ResponsesOk;
  }

  lemma ControllerGetsCloser(limit: nat, s: State, step: Step)
    requires Inv(s) && Enabled(limit, s, step)
    requires step.ReadRequest? || step.Solve? || step.WriteResponse? || step.RenameResponse? || step.MarkProcessed?
        || step.EndBatch?
    ensures Closer(s, Next(limit, s, step))
  {
    hide RequestsOk, AnswersOk, ResponsesOk;
    assert |s.sent| <= s.next + 1;
  }

  lemma PollGetsCloser(limit: nat, s: State, step: Step)
    requires Inv(s) && Enabled(limit, s, step) && step.Poll?
    ensures Next(limit, s, step) == s || Closer(s, Next(limit, s, step))
  {
    SnapshotIsOne(s, step.pending);
    hide RequestsOk, AnswersOk, ResponsesOk, Snapshot;
  }

  /** While the simulator is busy, every step that changes anything brings the response closer. */
  lemma StepsGetCloser(limit: nat, s: State, step: Step)
    requires Inv(s) && Enabled(limit, s, step) && !s.sim.Idle? && !step.ReadResponse?
    ensures Next(limit, s, step) == s || Closer(s, Next(limit, s, step))
  {
    if step.Poll? {
      PollGetsCloser(limit, s, step);
    } else if step.WriteRequest? || step.RenameRequest? || step.SeeResponse? {
      SimulatorGetsCloser(limit, s, step);
    } else {
      assert !step.OpenRequest?;
      ControllerGetsCloser(limit, s, step);
    }
  }

  /** While the simulator is busy some step is possible that changes the state: neither process waits for the other forever. */
  lemma BusyIsNeverStuck(limit: nat, s: State) returns (step: Step)
    requires Inv(s) && !s.sim.Idle? && (limit == 0 || s.next < limit)
    ensures Enabled(limit, s, step) && Next(limit, s, step) != s
  {
    match s.sim
    case Writing(text, done) => step := if done == |text| then RenameRequest else WriteRequest(|text| - done);
    case Seen => step := ReadResponse;
    case Waiting =>
      if Name(s.next) in s.responses {
        step := SeeResponse;
      } else {
        step := ControllerMoves(limit, s);
      }
  }

  lemma PollFindsRequest(limit: nat, s: State)
    requires Inv(s) && s.sim.Waiting? && s.ctl.Polling? && Name(s.next) !in s.responses && (limit == 0 || s.next < limit)
    ensures Enabled(limit, s, Poll([Name(s.next)]))
  {
    hide AnswersOk;
    assert Snapshot(s, [Name(s.next)]);
  }

  lemma ControllerMoves(limit: nat, s: State) returns (step: Step)
    requires Inv(s) && s.sim.Waiting? && Name(s.next) !in s.responses && (limit == 0 || s.next < limit)
    ensures Enabled(limit, s, step) && Next(limit, s, step) != s
  {
    hide AnswersOk, Snapshot, ResponsesOk;
    match s.ctl
    case Polling =>
      step := Poll([Name(s.next)]);
      PollFindsRequest(limit, s);
    case Serving(pending) => step := if pending == [] then EndBatch else ReadRequest;
    case Solving(_, _) => step := Solve("");
    case Replying(_, text, done) => step := if done == |text| then RenameResponse else WriteResponse(|text| - done);
    case Marking(_) => step := MarkProcessed;
  }

  /** A run from `s` to `t` in which every step changes something. */
  ghost predicate Leaps(limit: nat, s: State, path: seq<Step>, t: State)
    decreases |path|
  {
    if path == [] then s == t
    else Enabled(limit, s, path[0]) && Next(limit, s, path[0]) != s && Leaps(limit, Next(limit, s, path[0]), path[1..], t)
  }

  lemma WaitingStays(limit: nat, s: State, step: Step)
    requires Inv(s) && Enabled(limit, s, step) && !s.sim.Idle? && !step.ReadResponse?
    ensures var t := Next(limit, s, step); t.next == s.next && !t.sim.Idle? && t.received == s.received
  {
    hide RequestsOk, ResponsesOk, AnswersOk, Snapshot;
  }

  /** From every busy state some run of changing steps reads the response of the current request, and only that one. */
  lemma {:induction false} ResponseCanBeRead(limit: nat, s: State) returns (path: seq<Step>, t: State)
    requires Inv(s) && !s.sim.Idle? && (limit == 0 || s.next < limit)
    ensures Leaps(limit, s, path, t) && t.sim.Idle? && t.next == s.next + 1 == |t.received|
    ensures t.received[..s.next] == s.received
    decreases SimulatorStages(s) + ControllerStages(s), Unwritten(s)
  {
    var step := BusyIsNeverStuck(limit, s);
    var next := Next(limit, s, step);
    StepKeepsInv(limit, s, step);
    ReadCount(s);
    hide Inv, Enabled, Next, SimulatorStages, ControllerStages, Unwritten;
    if step.ReadResponse? {
      ReadingEndsWait(limit, s);
      path, t := [step], next;
    } else {
      StepsGetCloser(limit, s, step);
      WaitingStays(limit, s, step);
      var rest;
      rest, t := ResponseCanBeRead(limit, next);
      path := [step] + rest;
      assert path[1..] == rest;
    }
  }

  lemma ReadCount(s: State)
    requires Inv(s)
    ensures |s.received| == s.next
  {
  }

  lemma ReadingEndsWait(limit: nat, s: State)
    requires Inv(s) && Enabled(limit, s, ReadResponse)
    ensures var t := Next(limit, s, ReadResponse);
      t.sim.Idle? && t.next == s.next + 1 == |t.received| && t.received[..s.next] == s.received
  {
  }
}
