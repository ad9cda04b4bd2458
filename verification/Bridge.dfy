/**
  The two-process bridge: the simulator writes numbered requests and waits
  for the response of the same number, the controller polls for requests
  and answers them, and both publish files by writing a temporary one and
  renaming it. The machine interleaves the file operations of both
  processes in any way; files appear only through these operations, and
  the solver answers with any text.
 */
module Bridge {
  /** The name of a request or response: its step number. */
  datatype Name = Name(step: nat)

  type Directory = map<Name, string>

  /** `done` characters of the text have reached the temporary file; `Seen`: the response exists and is about to be read. */
  datatype Simulator = Idle | Writing(text: string, done: nat) | Waiting | Seen

  /** The list is what is left of the last snapshot; its head is being served. */
  datatype Controller =
    | Polling
    | Serving(pending: seq<Name>)
    | Solving(pending: seq<Name>, request: string)
    | Replying(pending: seq<Name>, text: string, done: nat)
    | Marking(pending: seq<Name>)

  datatype Answer = Answer(name: Name, request: string, response: string)

  /**
    The last three fields only observe the run: the requests published, the
    answers computed, and the responses read, each in the order of events.
   */
  datatype State = State(
    next: nat, sim: Simulator,
    ctl: Controller, processed: set<Name>, completed: nat,
    requests: Directory, requestTmp: Directory, responses: Directory, responseTmp: Directory,
    sent: seq<string>, solved: seq<Answer>, received: seq<string>)

  datatype Step =
    | OpenRequest(text: string)
    | WriteRequest(count: nat)
    | RenameRequest
    | SeeResponse
    | ReadResponse
    | Poll(pending: seq<Name>)
    | ReadRequest
    | Solve(response: string)
    | WriteResponse(count: nat)
    | RenameResponse
    | MarkProcessed
    | EndBatch

  function Initial(): State {
    State(0, Idle, Polling, {}, 0, map[], map[], map[], map[], [], [], [])
  }

  // ----- Steps -----

  /** `limit` is the number of requests after which the controller stops polling; zero serves indefinitely. */
  ghost predicate Enabled(limit: nat, s: State, step: Step) {
    match step
    case OpenRequest(_) => s.sim.Idle?
    case WriteRequest(n) => s.sim.Writing? && 0 < n && s.sim.done + n <= |s.sim.text|
    case RenameRequest => s.sim.Writing? && s.sim.done == |s.sim.text| && Name(s.next) in s.requestTmp
    case SeeResponse => s.sim.Waiting? && Name(s.next) in s.responses
    case ReadResponse => s.sim.Seen? && Name(s.next) in s.responses
    case Poll(pending) => s.ctl.Polling? && (limit == 0 || s.completed < limit) && Snapshot(s, pending)
    case ReadRequest => s.ctl.Serving? && s.ctl.pending != [] && s.ctl.pending[0] in s.requests
    case Solve(_) => s.ctl.Solving? && s.ctl.pending != []
    case WriteResponse(n) => s.ctl.Replying? && s.ctl.pending != [] && 0 < n && s.ctl.done + n <= |s.ctl.text|
    case RenameResponse => s.ctl.Replying? && s.ctl.pending != [] && s.ctl.done == |s.ctl.text|
        && s.ctl.pending[0] in s.responseTmp
    case MarkProcessed => s.ctl.Marking? && s.ctl.pending != []
    case EndBatch => s.ctl.Serving? && s.ctl.pending == []
  }

  /** The requests not processed yet, in the order of their names. */
  ghost predicate Snapshot(s: State, pending: seq<Name>) {
    && (forall n :: n in pending <==> n in s.requests && n !in s.processed)
    && (forall i, j :: 0 <= i < j < |pending| ==> pending[i].step < pending[j].step)
  }

  ghost function Next(limit: nat, s: State, step: Step): State
    requires Enabled(limit, s, step)
  {
    match step
    case OpenRequest(text) => s.(sim := Writing(text, 0), requestTmp := s.requestTmp[Name(s.next) := ""])
    case WriteRequest(n) =>
      var done := s.sim.done + n;
      s.(sim := s.sim.(done := done), requestTmp := s.requestTmp[Name(s.next) := s.sim.text[..done]])
    case RenameRequest =>
      var name := Name(s.next);
      s.(sim := Waiting, sent := s.sent + [s.sim.text],
         requests := s.requests[name := s.requestTmp[name]], requestTmp := s.requestTmp - {name})
    case SeeResponse => s.(sim := Seen)
    case ReadResponse => s.(sim := Idle, next := s.next + 1, received := s.received + [s.responses[Name(s.next)]])
    case Poll(pending) => if pending == [] then s else s.(ctl := Serving(pending))
    case ReadRequest => s.(ctl := Solving(s.ctl.pending, s.requests[s.ctl.pending[0]]))
    case Solve(response) =>
      var name := s.ctl.pending[0];
      s.(ctl := Replying(s.ctl.pending, response, 0), responseTmp := s.responseTmp[name := ""],
         solved := s.solved + [Answer(name, s.ctl.request, response)])
    case WriteResponse(n) =>
      var done := s.ctl.done + n;
      s.(ctl := s.ctl.(done := done), responseTmp := s.responseTmp[s.ctl.pending[0] := s.ctl.text[..done]])
    case RenameResponse =>
      var name := s.ctl.pending[0];
      s.(ctl := Marking(s.ctl.pending), responses := s.responses[name := s.responseTmp[name]],
          responseTmp := s.responseTmp - {name})
    case MarkProcessed =>
      s.(ctl := Serving(s.ctl.pending[1..]), processed := s.processed + {s.ctl.pending[0]}, completed := s.completed + 1)
    case EndBatch => s.(ctl := Polling)
  }

  ghost predicate Reaches(limit: nat, steps: seq<Step>, s: State)
    decreases |steps|, 0
  {
    if steps == [] then s == Initial() else ReachesBy(limit, steps[..|steps| - 1], steps[|steps| - 1], s)
  }

  ghost predicate ReachesBy(limit: nat, steps: seq<Step>, last: Step, s: State)
    decreases |steps|, 1
  {
    exists before :: Reaches(limit, steps, before) && Leads(limit, before, last, s)
  }

  ghost predicate Leads(limit: nat, before: State, step: Step, s: State) {
    Enabled(limit, before, step) && Next(limit, before, step) == s
  }

  // ----- The invariant -----

  /** How many responses have been published, and how many of these the controller has noted. */
  ghost function Replied(s: State): int {
    |s.solved| - if s.ctl.Replying? then 1 else 0
  }

  ghost function Noted(s: State): int {
    Replied(s) - if s.ctl.Marking? then 1 else 0
  }

  /** The simulator is at most one request ahead of what it has read. */
  ghost predicate SimulatorOk(s: State) {
    && |s.received| == s.next
    && |s.sent| == s.next + (if s.sim.Waiting? || s.sim.Seen? then 1 else 0)
    && (s.sim.Writing? ==> s.sim.done <= |s.sim.text|
                           && Name(s.next) in s.requestTmp && s.requestTmp[Name(s.next)] == s.sim.text[..s.sim.done])
    && (s.sim.Seen? ==> Replied(s) == s.next + 1)
  }

  /** The controller serves one request at a time: the first one without a response. */
  ghost predicate ControllerOk(s: State) {
    && s.next <= Replied(s) <= |s.solved| <= |s.sent|
    && (forall name :: name in s.processed <==> name.step < Noted(s))
    && s.completed == Noted(s)
    && match s.ctl
       case Polling => true
       case Serving(pending) => pending == [] || (pending == [Name(|s.solved|)] && |s.solved| < |s.sent|)
       case Solving(pending, request) => pending == [Name(|s.solved|)] && |s.solved| < |s.sent| && request == s.sent[|s.solved|]
       case Replying(pending, text, done) =>
         && |s.solved| > 0 && pending == [Name(|s.solved| - 1)] && done <= |text| && text == s.solved[|s.solved| - 1].response
         && pending[0] in s.responseTmp && s.responseTmp[pending[0]] == text[..done]
       case Marking(pending) => |s.solved| > 0 && pending == [Name(|s.solved| - 1)]
  }

  /** The published requests are the first ones sent, each whole. */
  ghost predicate RequestsOk(requests: Directory, sent: seq<string>) {
    forall name :: if name in requests then name.step < |sent| && requests[name] == sent[name.step] else |sent| <= name.step
  }

  ghost predicate ResponsesOk(responses: Directory, solved: seq<Answer>, replied: int) {
    && replied <= |solved|
    && forall name :: if name in responses then name.step < replied && responses[name] == solved[name.step].response
                      else replied <= name.step
  }

  /** Answer `k` was computed from request `k`, and response `k` is what was read. */
  ghost predicate AnswersOk(sent: seq<string>, solved: seq<Answer>, received: seq<string>) {
    && |solved| <= |sent| && |received| <= |solved|
    && (forall k :: 0 <= k < |solved| ==> solved[k].name == Name(k) && solved[k].request == sent[k])
    && (forall k :: 0 <= k < |received| ==> received[k] == solved[k].response)
  }

  ghost predicate Inv(s: State) {
    && SimulatorOk(s) && ControllerOk(s)
    && RequestsOk(s.requests, s.sent) && ResponsesOk(s.responses, s.solved, Replied(s))
        && AnswersOk(s.sent, s.solved, s.received)
  }

  lemma OpeningKeepsInv(limit: nat, s: State, step: Step)
    requires Inv(s) && step.OpenRequest? && Enabled(limit, s, step)
    ensures Inv(Next(limit, s, step))
  {
    hide RequestsOk, ResponsesOk, AnswersOk;
  }

  lemma WritingRequestKeepsInv(limit: nat, s: State, step: Step)
    requires Inv(s) && step.WriteRequest? && Enabled(limit, s, step)
    ensures Inv(Next(limit, s, step))
  {
    hide RequestsOk, ResponsesOk, AnswersOk;
  }

  lemma PublishingRequestKeepsInv(limit: nat, s: State, step: Step)
    requires Inv(s) && step.RenameRequest? && Enabled(limit, s, step)
    ensures Inv(Next(limit, s, step))
  {
    hide ResponsesOk;
    assert s.sim.text[..|s.sim.text|] == s.sim.text;
  }

  lemma SeeingResponseKeepsInv(limit: nat, s: State, step: Step)
    requires Inv(s) && step.SeeResponse? && Enabled(limit, s, step)
    ensures Inv(Next(limit, s, step))
  {
    hide RequestsOk, AnswersOk;
  }

  lemma ReadingResponseKeepsInv(limit: nat, s: State, step: Step)
    requires Inv(s) && step.ReadResponse? && Enabled(limit, s, step)
    ensures Inv(Next(limit, s, step))
  {
    hide RequestsOk;
  }

  /** A snapshot holds nothing or the one request without a response. */
  lemma SnapshotIsOne(s: State, pending: seq<Name>)
    requires Inv(s) && s.ctl.Polling? && Snapshot(s, pending)
    ensures pending == if |s.solved| < |s.sent| then [Name(|s.solved|)] else []
  {
    assert |pending| >= 2 ==> pending[0].step < pending[1].step;
    assert |pending| > 0 ==> pending[0] in pending;
    forall i | 0 <= i < |pending| ensures pending[i] == Name(|s.solved|) {
      assert pending[i] in pending;
    }
    if |s.solved| < |s.sent| {
      assert Name(|s.solved|) in pending;
    } else {
      assert forall n :: n !in pending;
    }
  }

  lemma PollingKeepsInv(limit: nat, s: State, step: Step)
    requires Inv(s) && step.Poll? && Enabled(limit, s, step)
    ensures Inv(Next(limit, s, step))
  {
    hide ResponsesOk, AnswersOk, RequestsOk;
    SnapshotIsOne(s, step.pending);
  }

  lemma ReadingRequestKeepsInv(limit: nat, s: State, step: Step)
    requires Inv(s) && step.ReadRequest? && Enabled(limit, s, step)
    ensures Inv(Next(limit, s, step))
  {
    hide ResponsesOk, AnswersOk;
  }

  lemma SolvingKeepsInv(limit: nat, s: State, step: Step)
    requires Inv(s) && step.Solve? && Enabled(limit, s, step)
    ensures Inv(Next(limit, s, step))
  {
    hide RequestsOk;
  }

  lemma WritingResponseKeepsInv(limit: nat, s: State, step: Step)
    requires Inv(s) && step.WriteResponse? && Enabled(limit, s, step)
    ensures Inv(Next(limit, s, step))
  {
    hide RequestsOk, ResponsesOk, AnswersOk;
  }

  lemma PublishingResponseKeepsInv(limit: nat, s: State, step: Step)
    requires Inv(s) && step.RenameResponse? && Enabled(limit, s, step)
    ensures Inv(Next(limit, s, step))
  {
    hide RequestsOk, AnswersOk;
    assert s.ctl.text[..|s.ctl.text|] == s.ctl.text;
  }

  lemma MarkingKeepsInv(limit: nat, s: State, step: Step)
    requires Inv(s) && step.MarkProcessed? && Enabled(limit, s, step)
    ensures Inv(Next(limit, s, step))
  {
    hide RequestsOk, ResponsesOk, AnswersOk;
  }

  lemma EndingBatchKeepsInv(limit: nat, s: State, step: Step)
    requires Inv(s) && step.EndBatch? && Enabled(limit, s, step)
    ensures Inv(Next(limit, s, step))
  {
    hide RequestsOk, ResponsesOk, AnswersOk;
  }

  lemma StepKeepsInv(limit: nat, s: State, step: Step)
    requires Inv(s) && Enabled(limit, s, step)
    ensures Inv(Next(limit, s, step))
  {
    hide Inv, Enabled, Next;
    match step
    case OpenRequest(_) => OpeningKeepsInv(limit, s, step);
    case WriteRequest(_) => WritingRequestKeepsInv(limit, s, step);
    case RenameRequest => PublishingRequestKeepsInv(limit, s, step);
    case SeeResponse => SeeingResponseKeepsInv(limit, s, step);
    case ReadResponse => ReadingResponseKeepsInv(limit, s, step);
    case Poll(_) => PollingKeepsInv(limit, s, step);
    case ReadRequest => ReadingRequestKeepsInv(limit, s, step);
    case Solve(_) => SolvingKeepsInv(limit, s, step);
    case WriteResponse(_) => WritingResponseKeepsInv(limit, s, step);
    case RenameResponse => PublishingResponseKeepsInv(limit, s, step);
    case MarkProcessed => MarkingKeepsInv(limit, s, step);
    case EndBatch => EndingBatchKeepsInv(limit, s, step);
  }

  lemma InitialInv()
    ensures Inv(Initial())
  {
  }

  lemma {:induction false} EveryRunKeepsInv(limit: nat, steps: seq<Step>, s: State)
    requires Reaches(limit, steps, s)
    ensures Inv(s)
    decreases |steps|
  {
    hide Inv, Enabled, Next;
    if steps == [] {
      InitialInv();
    } else {
      var step := steps[|steps| - 1];
      var before :| Reaches(limit, steps[..|steps| - 1], before) && Leads(limit, before, step, s);
      EveryRunKeepsInv(limit, steps[..|steps| - 1], before);
      StepKeepsInv(limit, before, step);
    }
  }
}
