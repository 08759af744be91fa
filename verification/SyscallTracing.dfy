/** Whole runs of the system-call tracer: any number of CPUs entering system calls, the kernel
    program, the ring buffer and the printing consumer, in any interleaving. */
module SyscallTracing {
  import opened CTypes
  import opened TargetFilter
  import opened Producer
  import opened CaseWrites
  import opened Consumer
  import opened SyscallLine
  import opened RingProtocol

  /** The ring, and how often a handled call made no reservation, by reason. */
  datatype System = System(ring: State, refused: nat, openOnly: nat, filtered: nat)

  /** A CPU enters a system call, a CPU executes its next statement, the consumer takes a record. */
  datatype Label = Enters(cpu: nat, call: Call) | Proceeds(cpu: nat) | Polls(microseconds: I64)

  predicate Records(cfg: Config, call: Call) {
    Possible(cfg, call) && PlanOf(cfg, call).Record?
  }

  function Case(cfg: Config, call: Call): (s: Syscall)
    requires Records(cfg, call)
    ensures s != Open
  {
    PlanOf(cfg, call).s
  }

  /** The call's record reaches the consumer: its path, if it has one, is readable. */
  predicate Delivered(cfg: Config, call: Call)
    requires Records(cfg, call)
  {
    PathReadable(Case(cfg, call), call)
  }

  function JobOf(cfg: Config, call: Call): (job: Job)
    requires Records(cfg, call)
    ensures JobOk(job)
  {
    FillsComplete(Case(cfg, call), Pid(cfg, call), call);
    Job(Fills(Case(cfg, call), Pid(cfg, call), call), Case(cfg, call).Ptrace?, call.stale)
  }

  predicate Enabled(cfg: Config, s: System, l: Label) {
    match l
    case Enters(c, call) =>
      && c < |s.ring.cpus| && s.ring.cpus[c].Idle? && Possible(cfg, call)
      && (PlanOf(cfg, call).Record? && call.granted ==> Room(s.ring))
    case Proceeds(c) => CanAdvance(s.ring, c)
    case Polls(t) => CanConsume(s.ring)
  }

  function Enter(cfg: Config, s: System, c: nat, call: Call): System
    requires Enabled(cfg, s, Enters(c, call))
  {
    match PlanOf(cfg, call)
    case Ignore => s
    case PrintOnly => s.(openOnly := s.openOnly + 1)
    case Filtered => s.(filtered := s.filtered + 1)
    case Record(_) =>
      if call.granted then s.(ring := Reserve(s.ring, c, JobOf(cfg, call))) else s.(refused := s.refused + 1)
  }

  function Step(cfg: Config, s: System, l: Label): System
    requires Inv(s.ring) && Enabled(cfg, s, l)
  {
    match l
    case Enters(c, call) => Enter(cfg, s, c, call)
    case Proceeds(c) => s.(ring := Advance(s.ring, c))
    case Polls(t) => s.(ring := Consume(s.ring, t))
  }

  lemma StepKeepsInv(cfg: Config, s: System, l: Label)
    requires Inv(s.ring) && Enabled(cfg, s, l)
    ensures Inv(Step(cfg, s, l).ring)
  {
    match l
    case Enters(c, call) =>
      if PlanOf(cfg, call).Record? && call.granted { ReserveKeepsInv(s.ring, c, JobOf(cfg, call)); }
    case Proceeds(c) => AdvanceKeepsInv(s.ring, c);
    case Polls(t) => ConsumeKeepsInv(s.ring, t);
  }

  // ----- runs

  ghost predicate ValidRun(cfg: Config, n: nat, trace: seq<Label>)
    decreases |trace|, 0
  {
    trace == [] ||
    var k := |trace| - 1;
    ValidRun(cfg, n, trace[..k]) && Enabled(cfg, Run(cfg, n, trace[..k]), trace[k])
  }

  /** The state a run of n CPUs ends in; the invariant of the ring holds in it. */
  ghost function Run(cfg: Config, n: nat, trace: seq<Label>): (s: System)
    requires ValidRun(cfg, n, trace)
    ensures Inv(s.ring)
    decreases |trace|, 1
  {
    if trace == [] then
      InitHasInv(n);
      System(Init(n), 0, 0, 0)
    else
      var k := |trace| - 1;
      var s := Run(cfg, n, trace[..k]);
      StepKeepsInv(cfg, s, trace[k]);
      Step(cfg, s, trace[k])
  }

  // ----- what a run should print, read off the trace alone

  /** What becomes of a call: it is not for the tracer, gets a record, finds the ring full, is an `open`
      that only prints a message, or an ioctl that is not for the binder. */
  datatype Fate = NotTraced | Recorded | Refused | MessageOnly | NotBinder

  /** The fate of a call, by process, label and command. */
  function FateOf(cfg: Config, l: Label): Fate {
    if !l.Enters? || !Possible(cfg, l.call) || !Selects(l.call.comm, cfg.target, l.call.pidTgid / TWO32)
       || l.call.id !in cfg.cases
    then NotTraced
    else
      match cfg.cases[l.call.id]
      case Open => MessageOnly
      case Ioctl =>
        if cfg.android && l.call.args[1] != 0xc0306201 && l.call.args[1] != 0x40046207 then NotBinder
        else if l.call.granted then Recorded else Refused
      case _ => if l.call.granted then Recorded else Refused
  }

  function Tally(cfg: Config, trace: seq<Label>, fate: Fate): nat {
    if trace == [] then 0
    else Tally(cfg, trace[..|trace| - 1], fate) + if FateOf(cfg, trace[|trace| - 1]) == fate then 1 else 0
  }

  /** Handled and reserved calls, in these terms. */
  lemma FateDecides(cfg: Config, l: Label)
    ensures IsHandled(cfg, l) <==> FateOf(cfg, l) != NotTraced
    ensures IsReserved(cfg, l) <==> FateOf(cfg, l) == Recorded
  {
    if l.Enters? && Possible(cfg, l.call) { PlanFollowsTheLabel(cfg, l.call); }
  }

  predicate IsHandled(cfg: Config, l: Label) {
    l.Enters? && Possible(cfg, l.call) && !PlanOf(cfg, l.call).Ignore?
  }

  predicate IsReserved(cfg: Config, l: Label) {
    l.Enters? && Records(cfg, l.call) && l.call.granted
  }

  /** The target's calls that the switch has a label for, in order. */
  function HandledCalls(cfg: Config, trace: seq<Label>): seq<Call> {
    if trace == [] then []
    else
      var k := |trace| - 1;
      HandledCalls(cfg, trace[..k]) + if IsHandled(cfg, trace[k]) then [trace[k].call] else []
  }

  /** Those of them that got a record. */
  function ReservedCalls(cfg: Config, trace: seq<Label>): (calls: seq<Call>)
    ensures forall k | 0 <= k < |calls| :: Records(cfg, calls[k])
  {
    if trace == [] then []
    else
      var k := |trace| - 1;
      ReservedCalls(cfg, trace[..k]) + if IsReserved(cfg, trace[k]) then [trace[k].call] else []
  }

  function Clocks(trace: seq<Label>): seq<I64> {
    if trace == [] then []
    else
      var k := |trace| - 1;
      Clocks(trace[..k]) + if trace[k].Polls? then [trace[k].microseconds] else []
  }

  /** The line a call should produce. */
  function LineOf(cfg: Config, call: Call, microseconds: I64): string
    requires Records(cfg, call)
  {
    CallLine(Case(cfg, call), Pid(cfg, call), call, microseconds) + "\n"
  }

  /** A call that must be able to read a path can. */
  predicate CanRead(cfg: Config, call: Call) {
    CallOk(call) && call.id in cfg.cases &&
    match cfg.cases[call.id]
    case Execve | Chown | Umount2 | Umount => call.texts[0].Some?
    case Openat => call.texts[1].Some?
    case _ => true
  }

  /** The line of a call is that of its own label, for the process that made it; and it is delivered
      unless it must read a path and cannot. */
  lemma LineOfCall(cfg: Config, call: Call, t: I64)
    requires Records(cfg, call)
    ensures call.id in cfg.cases && cfg.cases[call.id] != Open
    ensures var s := cfg.cases[call.id];
            && LineOf(cfg, call, t) == CallLine(s, ToI32(call.pidTgid / TWO32), call, t) + "\n"
            && (Delivered(cfg, call) <==> CanRead(cfg, call))
  {
    PlanFollowsTheLabel(cfg, call);
  }

  predicate AllRecord(cfg: Config, calls: seq<Call>) {
    forall k | 0 <= k < |calls| :: Records(cfg, calls[k])
  }

  /** A call to be shown, and when the consumer took its record. */
  datatype Shown = Shown(call: Call, microseconds: I64)

  /** What the consumer should show after taking as many reservations as there are clocks: all but
      those given up, in the order of their reservations. */
  function Delivery(cfg: Config, calls: seq<Call>, clocks: seq<I64>): (shown: seq<Shown>)
    requires |clocks| <= |calls| && AllRecord(cfg, calls)
    ensures forall i | 0 <= i < |shown| :: Records(cfg, shown[i].call)
    decreases |clocks|
  {
    if clocks == [] then []
    else
      var n := |clocks| - 1;
      var before := Delivery(cfg, calls, clocks[..n]);
      if Delivered(cfg, calls[n]) then before + [Shown(calls[n], clocks[n])] else before
  }

  function JobsOf(cfg: Config, calls: seq<Call>): (jobs: seq<Job>)
    requires AllRecord(cfg, calls)
    ensures |jobs| == |calls| && JobsOk(jobs)
    ensures forall k | 0 <= k < |jobs| :: jobs[k] == JobOf(cfg, calls[k])
  {
    seq(|calls|, k requires 0 <= k < |calls| => JobOf(cfg, calls[k]))
  }

  // ----- what it does print

  predicate Printable(handled: seq<Handled>) {
    forall k | 0 <= k < |handled| :: handled[k].rec.WellFormed()
  }

  /** What syscall_event_handler prints for each record taken from the ring, through its buffer. */
  function Output(handled: seq<Handled>): (lines: seq<string>)
    requires Printable(handled)
    ensures |lines| == |handled|
    ensures forall k | 0 <= k < |lines| :: lines[k] == HandlerOutput(handled[k].rec, handled[k].microseconds)
  {
    seq(|handled|, k requires 0 <= k < |handled| => HandlerOutput(handled[k].rec, handled[k].microseconds))
  }

  lemma JobOfCall(cfg: Config, call: Call, t: I64)
    requires Records(cfg, call)
    ensures Clean(JobOf(cfg, call)) <==> Delivered(cfg, call)
    ensures Final(JobOf(cfg, call)) == Produced(Case(cfg, call), Pid(cfg, call), call)
    ensures Terminated(Final(JobOf(cfg, call))) && KnownKind(Final(JobOf(cfg, call)).kind)
    ensures HandlerOutput(Final(JobOf(cfg, call)), t) == LineOf(cfg, call, t)
  {
    AbortsExactlyOnUnreadablePath(Case(cfg, call), Pid(cfg, call), call);
    RenderedRecordIsTheCall(Case(cfg, call), Pid(cfg, call), call, t);
    RenderingNeverTruncates(Final(JobOf(cfg, call)), t);
  }

  /** What the handler is given for a call. */
  function HandledOf(cfg: Config, shown: Shown): Handled
    requires Records(cfg, shown.call)
  {
    Handled(Final(JobOf(cfg, shown.call)), shown.microseconds)
  }

  predicate Matches(cfg: Config, handled: seq<Handled>, shown: seq<Shown>) {
    && |handled| == |shown|
    && forall i | 0 <= i < |shown| :: Records(cfg, shown[i].call) && handled[i] == HandledOf(cfg, shown[i])
  }

  lemma {:induction false} ExpectedMatchesDelivery(cfg: Config, calls: seq<Call>, clocks: seq<I64>)
    requires |clocks| <= |calls| && AllRecord(cfg, calls)
    ensures Matches(cfg, Expected(JobsOf(cfg, calls), clocks), Delivery(cfg, calls, clocks))
    decreases |clocks|
  {
    if clocks != [] {
      var n := |clocks| - 1;
      ExpectedMatchesDelivery(cfg, calls, clocks[..n]);
      assert JobsOf(cfg, calls)[n] == JobOf(cfg, calls[n]);
      AbortsExactlyOnUnreadablePath(Case(cfg, calls[n]), Pid(cfg, calls[n]), calls[n]);
    }
  }

  function Total(s: System): nat {
    |s.ring.cells| + s.refused + s.openOnly + s.filtered
  }

  lemma EnterEffect(cfg: Config, s: System, c: nat, call: Call)
    requires Enabled(cfg, s, Enters(c, call))
    ensures var s', l := Enter(cfg, s, c, call), Enters(c, call);
            && Jobs(s'.ring.cells) == Jobs(s.ring.cells) + (if IsReserved(cfg, l) then [JobOf(cfg, call)] else [])
            && s'.ring.clocks == s.ring.clocks
            && Total(s') == Total(s) + (if IsHandled(cfg, l) then 1 else 0)
  {
  }

  /** What one step adds to the reservations, the clocks and the counters. */
  lemma StepEffect(cfg: Config, s: System, l: Label)
    requires Inv(s.ring) && Enabled(cfg, s, l)
    ensures var s' := Step(cfg, s, l);
            && Jobs(s'.ring.cells) == Jobs(s.ring.cells) + (if IsReserved(cfg, l) then [JobOf(cfg, l.call)] else [])
            && s'.ring.clocks == s.ring.clocks + (if l.Polls? then [l.microseconds] else [])
            && Total(s') == Total(s) + (if IsHandled(cfg, l) then 1 else 0)
  {
    match l
    case Enters(c, call) => EnterEffect(cfg, s, c, call);
    case Proceeds(c) => AdvanceKeepsJobs(s.ring, c);
    case Polls(t) =>
  }

  lemma AdvanceKeepsJobs(s: State, c: nat)
    requires Inv(s) && CanAdvance(s, c)
    ensures Jobs(Advance(s, c).cells) == Jobs(s.cells)
  {
    AdvancePreserves(s, c);
  }

  /** The state of the ring mirrors the trace. */
  lemma {:induction false} RunFollowsTrace(cfg: Config, n: nat, trace: seq<Label>)
    requires ValidRun(cfg, n, trace)
    ensures Jobs(Run(cfg, n, trace).ring.cells) == JobsOf(cfg, ReservedCalls(cfg, trace))
    ensures Run(cfg, n, trace).ring.clocks == Clocks(trace)
    ensures |HandledCalls(cfg, trace)| == Total(Run(cfg, n, trace))
    decreases |trace|
  {
    if trace == [] {
      assert Jobs([]) == [];
    } else {
      var k := |trace| - 1;
      RunFollowsTrace(cfg, n, trace[..k]);
      StepEffect(cfg, Run(cfg, n, trace[..k]), trace[k]);
      JobsOfLast(cfg, trace);
    }
  }

  lemma JobsOfLast(cfg: Config, trace: seq<Label>)
    requires trace != []
    ensures var k := |trace| - 1;
            JobsOf(cfg, ReservedCalls(cfg, trace)) == JobsOf(cfg, ReservedCalls(cfg, trace[..k])) +
              if IsReserved(cfg, trace[k]) then [JobOf(cfg, trace[k].call)] else []
  {
  }

  // ----- delivery

  /** One handler call after another, the texts printed are the lines these calls should produce. */
  ghost predicate Prints(cfg: Config, lines: seq<string>, shown: seq<Shown>) {
    && |lines| == |shown|
    && forall i | 0 <= i < |shown| ::
         Records(cfg, shown[i].call) && lines[i] == LineOf(cfg, shown[i].call, shown[i].microseconds)
  }

  lemma MatchingRecordsPrint(cfg: Config, handled: seq<Handled>, shown: seq<Shown>)
    requires Matches(cfg, handled, shown)
    ensures Printable(handled) && Prints(cfg, Output(handled), shown)
  {
    assert Printable(handled);
    forall i | 0 <= i < |shown|
      ensures Output(handled)[i] == LineOf(cfg, shown[i].call, shown[i].microseconds)
    {
      JobOfCall(cfg, shown[i].call, shown[i].microseconds);
    }
  }

  /** In every run the texts that successive handler calls print are, one for one and in reservation
      order, the lines of the consumed reservations whose path could be read; they depend on the trace
      alone. What a reader of the stream makes of them is the matter of OutputStream. */
  lemma PrintedLines(cfg: Config, n: nat, trace: seq<Label>)
    requires ValidRun(cfg, n, trace)
    ensures |Clocks(trace)| <= |ReservedCalls(cfg, trace)|
    ensures Printable(Run(cfg, n, trace).ring.handled)
    ensures Prints(cfg, Output(Run(cfg, n, trace).ring.handled), Delivery(cfg, ReservedCalls(cfg, trace), Clocks(trace)))
  {
    RunFollowsTrace(cfg, n, trace);
    ExpectedMatchesDelivery(cfg, ReservedCalls(cfg, trace), Clocks(trace));
    MatchingRecordsPrint(cfg, Run(cfg, n, trace).ring.handled, Delivery(cfg, ReservedCalls(cfg, trace), Clocks(trace)));
  }

  predicate Increasing(idx: seq<nat>, bound: nat) {
    && (forall i | 0 <= i < |idx| :: idx[i] < bound)
    && forall i, j | 0 <= i < j < |idx| :: idx[i] < idx[j]
  }

  lemma {:induction false} ReservedAmongHandled(cfg: Config, trace: seq<Label>) returns (idx: seq<nat>)
    ensures Increasing(idx, |HandledCalls(cfg, trace)|) && |idx| == |ReservedCalls(cfg, trace)|
    ensures forall i | 0 <= i < |idx| :: ReservedCalls(cfg, trace)[i] == HandledCalls(cfg, trace)[idx[i]]
    decreases |trace|
  {
    idx := [];
    if trace != [] {
      var k := |trace| - 1;
      idx := ReservedAmongHandled(cfg, trace[..k]);
      if IsReserved(cfg, trace[k]) {
        assert IsHandled(cfg, trace[k]);
        idx := idx + [|HandledCalls(cfg, trace[..k])|];
      }
    }
  }

  /** `shown` is the subsequence of these calls at the positions idx. */
  predicate Chosen(shown: seq<Shown>, calls: seq<Call>, idx: seq<nat>) {
    |idx| == |shown| && Increasing(idx, |calls|) && forall i | 0 <= i < |idx| :: shown[i].call == calls[idx[i]]
  }

  lemma OneMorePosition(idx: seq<nat>, n: nat)
    requires Increasing(idx, n)
    ensures Increasing(idx, n + 1) && Increasing(idx + [n], n + 1)
    ensures forall i: nat :: i in idx + [n] <==> i in idx || i == n
  {
  }

  /** The positions of the delivered calls among the first n. */
  function DeliveredPositions(cfg: Config, calls: seq<Call>, n: nat): (idx: seq<nat>)
    requires n <= |calls| && AllRecord(cfg, calls)
    ensures Increasing(idx, n) && forall i: nat :: i in idx <==> i < n && Delivered(cfg, calls[i])
  {
    if n == 0 then []
    else
      var idx := DeliveredPositions(cfg, calls, n - 1);
      OneMorePosition(idx, n - 1);
      if Delivered(cfg, calls[n - 1]) then idx + [n - 1] else idx
  }

  /** `shown` are the calls at these positions, each with its own time. */
  predicate ShownAt(shown: seq<Shown>, calls: seq<Call>, clocks: seq<I64>, idx: seq<nat>) {
    && |shown| == |idx|
    && forall i | 0 <= i < |idx| :: idx[i] < |clocks| && idx[i] < |calls| && shown[i] == Shown(calls[idx[i]], clocks[idx[i]])
  }

  lemma ShowOneMore(shown: seq<Shown>, calls: seq<Call>, clocks: seq<I64>, idx: seq<nat>)
    requires clocks != [] && |clocks| <= |calls| && ShownAt(shown, calls, clocks[..|clocks| - 1], idx)
    ensures var n := |clocks| - 1;
            && ShownAt(shown, calls, clocks, idx)
            && ShownAt(shown + [Shown(calls[n], clocks[n])], calls, clocks, idx + [n])
  {
  }

  /** Delivered are exactly the calls taken whose path is readable. */
  lemma {:induction false} DeliveryAmongReserved(cfg: Config, calls: seq<Call>, clocks: seq<I64>)
    requires |clocks| <= |calls| && AllRecord(cfg, calls)
    ensures ShownAt(Delivery(cfg, calls, clocks), calls, clocks, DeliveredPositions(cfg, calls, |clocks|))
    decreases |clocks|
  {
    if clocks != [] {
      var n := |clocks| - 1;
      DeliveryAmongReserved(cfg, calls, clocks[..n]);
      ShowOneMore(Delivery(cfg, calls, clocks[..n]), calls, clocks, DeliveredPositions(cfg, calls, n));
    }
  }

  lemma ComposePositions(r: seq<nat>, p: seq<nat>, bound: nat) returns (idx: seq<nat>)
    requires Increasing(r, bound) && Increasing(p, |r|)
    ensures |idx| == |p| && (forall i | 0 <= i < |p| :: p[i] < |r| && idx[i] == r[p[i]]) && Increasing(idx, bound)
  {
    idx := seq(|p|, i requires 0 <= i < |p| => r[p[i]]);
  }

  /** The handler calls show a subsequence of the target's handled calls, in the order of their
      reservations: no call is shown twice, out of order, or without having been made. */
  lemma PrintedCallsAreInOrder(cfg: Config, n: nat, trace: seq<Label>) returns (shown: seq<Shown>, idx: seq<nat>)
    requires ValidRun(cfg, n, trace)
    ensures Printable(Run(cfg, n, trace).ring.handled)
    ensures Prints(cfg, Output(Run(cfg, n, trace).ring.handled), shown)
    ensures Chosen(shown, HandledCalls(cfg, trace), idx)
  {
    PrintedLines(cfg, n, trace);
    var reserved := ReservedCalls(cfg, trace);
    shown := Delivery(cfg, reserved, Clocks(trace));
    var r := ReservedAmongHandled(cfg, trace);
    DeliveryAmongReserved(cfg, reserved, Clocks(trace));
    var p := DeliveredPositions(cfg, reserved, |Clocks(trace)|);
    idx := ComposePositions(r, p, |HandledCalls(cfg, trace)|);
  }

  /** What a run prints, said of the calls alone: handler call k prints the line of reserved call idx[k],
      at the time that reservation was taken, and every reservation taken is shown once, in order,
      unless it had to read a path and could not. */
  lemma ReadableCallsAreShown(cfg: Config, n: nat, trace: seq<Label>) returns (idx: seq<nat>)
    requires ValidRun(cfg, n, trace)
    ensures Printable(Run(cfg, n, trace).ring.handled) && |Clocks(trace)| <= |ReservedCalls(cfg, trace)|
    ensures |idx| == |Run(cfg, n, trace).ring.handled| && Increasing(idx, |Clocks(trace)|)
    ensures forall c | c in ReservedCalls(cfg, trace) :: CallOk(c) && c.id in cfg.cases
    ensures forall k | 0 <= k < |idx| ::
              var c := ReservedCalls(cfg, trace)[idx[k]];
              Output(Run(cfg, n, trace).ring.handled)[k] ==
                CallLine(cfg.cases[c.id], ToI32(c.pidTgid / TWO32), c, Clocks(trace)[idx[k]]) + "\n"
    ensures forall i: nat :: i in idx <==> i < |Clocks(trace)| && CanRead(cfg, ReservedCalls(cfg, trace)[i])
  {
    var calls := ReservedCalls(cfg, trace);
    PrintedLines(cfg, n, trace);
    DeliveryAmongReserved(cfg, calls, Clocks(trace));
    idx := DeliveredPositions(cfg, calls, |Clocks(trace)|);
    forall i | 0 <= i < |calls|
      ensures CallOk(calls[i]) && calls[i].id in cfg.cases && (Delivered(cfg, calls[i]) <==> CanRead(cfg, calls[i]))
    {
      LineOfCall(cfg, calls[i], 0);
    }
    forall k | 0 <= k < |idx|
      ensures var c := calls[idx[k]];
              Output(Run(cfg, n, trace).ring.handled)[k] ==
                CallLine(cfg.cases[c.id], ToI32(c.pidTgid / TWO32), c, Clocks(trace)[idx[k]]) + "\n"
    {
      LineOfCall(cfg, calls[idx[k]], Clocks(trace)[idx[k]]);
    }
  }

  lemma KnownKindsHaveNames(kind: int)
    requires KnownKind(kind)
    ensures Name(kind) != "unknown"
  {
    assert "unknown"[0] == 'u' && "unknown"[1] == 'n';
  }

  /** No record that reaches the handler, in any run, is labelled "unknown". */
  lemma NothingIsUnknown(cfg: Config, n: nat, trace: seq<Label>, k: nat)
    requires ValidRun(cfg, n, trace) && k < |Run(cfg, n, trace).ring.handled|
    ensures KnownKind(Run(cfg, n, trace).ring.handled[k].rec.kind)
    ensures Name(Run(cfg, n, trace).ring.handled[k].rec.kind) != "unknown"
  {
    RunFollowsTrace(cfg, n, trace);
    ExpectedMatchesDelivery(cfg, ReservedCalls(cfg, trace), Clocks(trace));
    var shown := Delivery(cfg, ReservedCalls(cfg, trace), Clocks(trace));
    JobOfCall(cfg, shown[k].call, shown[k].microseconds);
    KnownKindsHaveNames(Run(cfg, n, trace).ring.handled[k].rec.kind);
  }

  // ----- every run can be completed

  lemma PollExtends(cfg: Config, n: nat, trace: seq<Label>, t: I64)
    requires ValidRun(cfg, n, trace) && CanConsume(Run(cfg, n, trace).ring)
    ensures ValidRun(cfg, n, trace + [Polls(t)])
    ensures Run(cfg, n, trace + [Polls(t)]).ring == Consume(Run(cfg, n, trace).ring, t)
  {
    assert (trace + [Polls(t)])[..|trace|] == trace;
  }

  /** `longer` goes on from `trace` without new calls, and with the clock at t. */
  predicate GoesOn(trace: seq<Label>, longer: seq<Label>, t: I64) {
    trace <= longer && forall i | |trace| <= i < |longer| :: longer[i].Proceeds? || longer[i] == Polls(t)
  }

  lemma {:induction false} GoingOnKeepsCalls(cfg: Config, trace: seq<Label>, longer: seq<Label>, t: I64)
    requires GoesOn(trace, longer, t)
    ensures HandledCalls(cfg, longer) == HandledCalls(cfg, trace) && ReservedCalls(cfg, longer) == ReservedCalls(cfg, trace)
    ensures Clocks(trace) <= Clocks(longer) && forall i | |Clocks(trace)| <= i < |Clocks(longer)| :: Clocks(longer)[i] == t
    decreases |longer|
  {
    if |trace| < |longer| {
      var k := |longer| - 1;
      assert trace <= longer[..k];
      GoingOnKeepsCalls(cfg, trace, longer[..k], t);
    } else {
      assert trace == longer;
    }
  }

  /** Statements a CPU has left to do: writes, submission and signal. */
  function Left(s: State, c: nat): nat
    requires Inv(s) && c < |s.cpus|
  {
    if s.cpus[c].Idle? then 0
    else
      assert CpuOk(s.cells, s.cpus[c]);
      |s.cells[s.cpus[c].cell].job.fills| + 2 - s.cpus[c].pc
  }

  lemma AdvanceLeavesLess(s: State, c: nat)
    requires Inv(s) && CanAdvance(s, c) && Inv(Advance(s, c))
    ensures Left(Advance(s, c), c) < Left(s, c)
    ensures Advance(s, c).cpus[c := Idle] == s.cpus[c := Idle]
  {
    assert CpuOk(s.cells, s.cpus[c]);
  }

  lemma ProceedExtends(cfg: Config, n: nat, trace: seq<Label>, c: nat, t: I64)
    requires ValidRun(cfg, n, trace) && CanAdvance(Run(cfg, n, trace).ring, c)
    ensures var s, longer := Run(cfg, n, trace).ring, trace + [Proceeds(c)];
            && ValidRun(cfg, n, longer) && GoesOn(trace, longer, t)
            && |Run(cfg, n, longer).ring.cpus| == |s.cpus|
            && Run(cfg, n, longer).ring.cpus[c := Idle] == s.cpus[c := Idle]
            && Left(Run(cfg, n, longer).ring, c) < Left(s, c)
  {
    assert (trace + [Proceeds(c)])[..|trace|] == trace;
    AdvanceKeepsInv(Run(cfg, n, trace).ring, c);
    AdvanceLeavesLess(Run(cfg, n, trace).ring, c);
  }

  /** A CPU inside the program gets out of it by its own statements alone. */
  lemma {:induction false} FinishCpu(cfg: Config, n: nat, trace: seq<Label>, c: nat, t: I64) returns (longer: seq<Label>)
    requires ValidRun(cfg, n, trace) && c < |Run(cfg, n, trace).ring.cpus|
    ensures ValidRun(cfg, n, longer) && GoesOn(trace, longer, t)
    ensures Run(cfg, n, longer).ring.cpus == Run(cfg, n, trace).ring.cpus[c := Idle]
    decreases Left(Run(cfg, n, trace).ring, c)
  {
    var s := Run(cfg, n, trace).ring;
    longer := trace;
    if s.cpus[c].Running? {
      ProceedExtends(cfg, n, trace, c, t);
      longer := FinishCpu(cfg, n, trace + [Proceeds(c)], c, t);
    }
  }

  /** From any state, the CPUs can finish what they have begun. */
  lemma {:induction false} Settle(cfg: Config, n: nat, trace: seq<Label>, c: nat, t: I64) returns (longer: seq<Label>)
    requires ValidRun(cfg, n, trace) && c <= |Run(cfg, n, trace).ring.cpus|
    requires forall d | 0 <= d < c :: Run(cfg, n, trace).ring.cpus[d].Idle?
    ensures ValidRun(cfg, n, longer) && GoesOn(trace, longer, t)
    ensures Quiet(Run(cfg, n, longer).ring)
    ensures |Run(cfg, n, longer).ring.cpus| == |Run(cfg, n, trace).ring.cpus|
    decreases |Run(cfg, n, trace).ring.cpus| - c
  {
    longer := trace;
    if c < |Run(cfg, n, trace).ring.cpus| {
      longer := FinishCpu(cfg, n, trace, c, t);
      longer := Settle(cfg, n, longer, c + 1, t);
    }
  }

  /** Once every CPU is outside the program, polling on takes every reservation. */
  lemma {:induction false} Drain(cfg: Config, n: nat, trace: seq<Label>, t: I64) returns (polled: seq<Label>)
    requires ValidRun(cfg, n, trace) && Quiet(Run(cfg, n, trace).ring)
    ensures ValidRun(cfg, n, polled) && GoesOn(trace, polled, t)
    ensures Run(cfg, n, polled).ring.cells == Run(cfg, n, trace).ring.cells
    ensures Run(cfg, n, polled).ring.cpus == Run(cfg, n, trace).ring.cpus
    ensures |Run(cfg, n, polled).ring.clocks| == |Run(cfg, n, trace).ring.cells|
    decreases |Run(cfg, n, trace).ring.cells| - |Run(cfg, n, trace).ring.clocks|
  {
    var s := Run(cfg, n, trace).ring;
    polled := trace;
    if |s.clocks| < |s.cells| {
      QuietMeansSettled(s);
      assert Settled(s.cells[|s.clocks|]);
      PollExtends(cfg, n, trace, t);
      polled := Drain(cfg, n, trace + [Polls(t)], t);
    }
  }

  /** Every CPU is outside the program and every reservation has been taken. */
  predicate Done(s: State) {
    Quiet(s) && |s.clocks| == |s.cells|
  }

  /** Every run can go on, without new calls, until each reservation whose path was readable has been
      shown: no reservation is stuck, whatever state the others are in. */
  lemma EveryReservationIsShown(cfg: Config, n: nat, trace: seq<Label>, t: I64) returns (longer: seq<Label>)
    requires ValidRun(cfg, n, trace)
    ensures ValidRun(cfg, n, longer) && GoesOn(trace, longer, t) && Done(Run(cfg, n, longer).ring)
    ensures |Run(cfg, n, longer).ring.cpus| == |Run(cfg, n, trace).ring.cpus|
    ensures |Clocks(longer)| == |ReservedCalls(cfg, trace)|
    ensures Printable(Run(cfg, n, longer).ring.handled)
    ensures Prints(cfg, Output(Run(cfg, n, longer).ring.handled), Delivery(cfg, ReservedCalls(cfg, trace), Clocks(longer)))
  {
    var settled := Settle(cfg, n, trace, 0, t);
    longer := Drain(cfg, n, settled, t);
    GoingOnKeepsCalls(cfg, trace, longer, t);
    RunFollowsTrace(cfg, n, longer);
    assert |Jobs(Run(cfg, n, longer).ring.cells)| == |JobsOf(cfg, ReservedCalls(cfg, longer))|;
    PrintedLines(cfg, n, longer);
  }

  lemma CanEnter(cfg: Config, s: System, call: Call)
    requires Inv(s.ring) && Done(s.ring) && 0 < |s.ring.cpus| && Records(cfg, call) && call.granted
    ensures Enabled(cfg, s, Enters(0, call)) && Room(s.ring) && s.ring.cpus[0].Idle?
    ensures |Enter(cfg, s, 0, call).ring.cpus| == |s.ring.cpus|
  {
    RoomIsEight(s.ring);
  }

  lemma EnterExtends(cfg: Config, n: nat, trace: seq<Label>, call: Call)
    requires ValidRun(cfg, n, trace) && Done(Run(cfg, n, trace).ring) && 0 < |Run(cfg, n, trace).ring.cpus|
    requires Records(cfg, call) && call.granted
    ensures var longer := trace + [Enters(0, call)];
            && ValidRun(cfg, n, longer) && |Run(cfg, n, longer).ring.cpus| == |Run(cfg, n, trace).ring.cpus|
            && ReservedCalls(cfg, longer) == ReservedCalls(cfg, trace) + [call] && Clocks(longer) == Clocks(trace)
  {
    var longer := trace + [Enters(0, call)];
    assert longer[..|trace|] == trace && longer[|trace|] == Enters(0, call);
    CanEnter(cfg, Run(cfg, n, trace), call);
    assert IsReserved(cfg, Enters(0, call));
  }

  /** The run has made reservations for exactly these calls, and all are taken, at time t. */
  ghost predicate HasTaken(cfg: Config, n: nat, trace: seq<Label>, calls: seq<Call>, t: I64) {
    && ValidRun(cfg, n, trace) && Done(Run(cfg, n, trace).ring) && |Run(cfg, n, trace).ring.cpus| == n
    && ReservedCalls(cfg, trace) == calls
    && |Clocks(trace)| == |calls| && forall i | 0 <= i < |calls| :: Clocks(trace)[i] == t
  }

  lemma NothingIsTaken(cfg: Config, n: nat, t: I64)
    ensures HasTaken(cfg, n, [], [], t)
  {
  }

  lemma TakeOneMore(cfg: Config, n: nat, trace: seq<Label>, calls: seq<Call>, call: Call, t: I64) returns (longer: seq<Label>)
    requires 0 < n && HasTaken(cfg, n, trace, calls, t) && Records(cfg, call) && call.granted
    ensures HasTaken(cfg, n, longer, calls + [call], t)
  {
    EnterExtends(cfg, n, trace, call);
    var entered := trace + [Enters(0, call)];
    longer := EveryReservationIsShown(cfg, n, entered, t);
    GoingOnKeepsCalls(cfg, entered, longer, t);
  }

  predicate AllGranted(cfg: Config, calls: seq<Call>) {
    forall i | 0 <= i < |calls| :: Records(cfg, calls[i]) && calls[i].granted
  }

  /** Whatever calls the target makes, some run takes them all: one CPU makes one after the other. */
  lemma {:induction false} CallsCanBeTaken(cfg: Config, n: nat, calls: seq<Call>, t: I64) returns (trace: seq<Label>)
    requires 0 < n && AllGranted(cfg, calls)
    ensures HasTaken(cfg, n, trace, calls, t)
    decreases |calls|
  {
    if calls == [] {
      trace := [];
      NothingIsTaken(cfg, n, t);
    } else {
      var k := |calls| - 1;
      var before := CallsCanBeTaken(cfg, n, calls[..k], t);
      trace := TakeOneMore(cfg, n, before, calls[..k], calls[k], t);
      assert calls == calls[..k] + [calls[k]];
    }
  }

  // ----- the ring

  /** No step of anyone removes, reorders or reuses a reservation, or touches a closed record. */
  lemma StepPreservesReservations(cfg: Config, s: System, l: Label)
    requires Inv(s.ring) && Enabled(cfg, s, l)
    ensures Preserves(s.ring.cells, Step(cfg, s, l).ring.cells)
  {
    if l.Proceeds? { AdvancePreserves(s.ring, l.cpu); }
  }

  /** In every run at most eight records are waiting, and a call that meets eight is refused, which
      changes nothing but a counter; with fewer, the ring has room. */
  lemma FullRingRefuses(cfg: Config, n: nat, trace: seq<Label>, c: nat, call: Call)
    requires ValidRun(cfg, n, trace)
    ensures var s := Run(cfg, n, trace); var waiting := |s.ring.cells| - |s.ring.clocks|;
            && 0 <= waiting <= 8
            && (Room(s.ring) <==> waiting < 8)
            && (waiting == 8 && Records(cfg, call) && Enabled(cfg, s, Enters(c, call)) ==>
                  !call.granted && Step(cfg, s, Enters(c, call)) == s.(refused := s.refused + 1))
  {
    RoomIsEight(Run(cfg, n, trace).ring);
  }

  // ----- accounting

  lemma EnterTallies(cfg: Config, s: System, c: nat, call: Call)
    requires Enabled(cfg, s, Enters(c, call))
    ensures var s', fate := Enter(cfg, s, c, call), FateOf(cfg, Enters(c, call));
            && |s'.ring.cells| == |s.ring.cells| + (if fate == Recorded then 1 else 0)
            && s'.refused == s.refused + (if fate == Refused then 1 else 0)
            && s'.openOnly == s.openOnly + (if fate == MessageOnly then 1 else 0)
            && s'.filtered == s.filtered + (if fate == NotBinder then 1 else 0)
  {
    PlanFollowsTheLabel(cfg, call);
  }

  lemma StepTallies(cfg: Config, s: System, l: Label)
    requires Inv(s.ring) && Enabled(cfg, s, l)
    ensures var s', fate := Step(cfg, s, l), FateOf(cfg, l);
            && |s'.ring.cells| == |s.ring.cells| + (if fate == Recorded then 1 else 0)
            && s'.refused == s.refused + (if fate == Refused then 1 else 0)
            && s'.openOnly == s.openOnly + (if fate == MessageOnly then 1 else 0)
            && s'.filtered == s.filtered + (if fate == NotBinder then 1 else 0)
  {
    if l.Enters? { EnterTallies(cfg, s, l.cpu, l.call); }
  }

  /** Each counter of a run counts the calls of one fate, and so do the reservations. */
  lemma {:induction false} CountersFollowTrace(cfg: Config, n: nat, trace: seq<Label>)
    requires ValidRun(cfg, n, trace)
    ensures var s := Run(cfg, n, trace);
            && |s.ring.cells| == Tally(cfg, trace, Recorded) && s.refused == Tally(cfg, trace, Refused)
            && s.openOnly == Tally(cfg, trace, MessageOnly) && s.filtered == Tally(cfg, trace, NotBinder)
    decreases |trace|
  {
    if trace != [] {
      var k := |trace| - 1;
      CountersFollowTrace(cfg, n, trace[..k]);
      StepTallies(cfg, Run(cfg, n, trace[..k]), trace[k]);
    }
  }

  /** Every handled call is accounted for, in every run: submitted, discarded, in flight, refused for
      lack of room, an `open` that only prints a message, or an ioctl that is not for the binder.
      An open record always has a CPU at work on it, so nothing is in flight in a quiet state. */
  lemma Accounting(cfg: Config, n: nat, trace: seq<Label>)
    requires ValidRun(cfg, n, trace)
    ensures var s := Run(cfg, n, trace);
            && |HandledCalls(cfg, trace)| ==
                 Count(s.ring.cells, IsSubmitted) + Count(s.ring.cells, IsDiscarded) + Count(s.ring.cells, IsBusy)
                 + s.refused + s.openOnly + s.filtered
            && s.refused == Tally(cfg, trace, Refused) && s.openOnly == Tally(cfg, trace, MessageOnly)
            && s.filtered == Tally(cfg, trace, NotBinder)
            && (forall k | 0 <= k < |s.ring.cells| && s.ring.cells[k].slot.status == Busy :: Owned(s.ring.cpus, k))
            && (Quiet(s.ring) ==> Count(s.ring.cells, IsBusy) == 0)
  {
    var s := Run(cfg, n, trace);
    RunFollowsTrace(cfg, n, trace);
    CountersFollowTrace(cfg, n, trace);
    EveryCellHasOneStatus(s.ring.cells);
    if Quiet(s.ring) {
      QuietMeansSettled(s.ring);
      NoneCounted(s.ring.cells, IsBusy);
    }
  }

  lemma KillMeansPtrace(cfg: Config, calls: seq<Call>, cells: seq<Cell>, k: nat)
    requires AllRecord(cfg, calls) && Jobs(cells) == JobsOf(cfg, calls) && k < |cells|
    ensures |calls| == |cells| && (cells[k].job.kill <==> Case(cfg, calls[k]).Ptrace?)
  {
    assert |Jobs(cells)| == |JobsOf(cfg, calls)|;
    assert Jobs(cells)[k] == JobOf(cfg, calls[k]);
  }

  /** Ptrace enforcement, in every run: the signals sent are as many as the ptrace records submitted,
      less those whose CPU is about to send one; each follows its own submission; and an attempt
      without a record leaves neither. */
  lemma SignalsMatchSubmissions(cfg: Config, n: nat, trace: seq<Label>)
    requires ValidRun(cfg, n, trace)
    ensures |ReservedCalls(cfg, trace)| == |Run(cfg, n, trace).ring.cells|
    ensures forall k | 0 <= k < |ReservedCalls(cfg, trace)| ::
              Run(cfg, n, trace).ring.cells[k].job.kill <==> Case(cfg, ReservedCalls(cfg, trace)[k]).Ptrace?
    ensures OneSignalEach(Run(cfg, n, trace).ring)
  {
    RunFollowsTrace(cfg, n, trace);
    var s, calls := Run(cfg, n, trace).ring, ReservedCalls(cfg, trace);
    assert |Jobs(s.cells)| == |JobsOf(cfg, calls)|;
    forall k | 0 <= k < |s.cells|
      ensures s.cells[k].job.kill <==> Case(cfg, calls[k]).Ptrace?
    {
      KillMeansPtrace(cfg, calls, s.cells, k);
    }
    SignalsFollowSubmissions(s);
  }

  /** A reservation its CPU has left is exactly what `SysEnterMultiplexer` leaves for that call. */
  lemma ProtocolAgreesWithCode(cfg: Config, n: nat, trace: seq<Label>, k: nat)
    requires ValidRun(cfg, n, trace)
    requires k < |Run(cfg, n, trace).ring.cells| && !Owned(Run(cfg, n, trace).ring.cpus, k)
    ensures k < |ReservedCalls(cfg, trace)|
    ensures var call := ReservedCalls(cfg, trace)[k]; var cell := Run(cfg, n, trace).ring.cells[k];
            IsFinished(Case(cfg, call), Pid(cfg, call), call, cell.slot)
  {
    RunFollowsTrace(cfg, n, trace);
    var s := Run(cfg, n, trace).ring;
    var call := ReservedCalls(cfg, trace)[k];
    assert CellOk(s.cells[k]) && Settled(s.cells[k]);
    assert Jobs(s.cells)[k] == JobOf(cfg, call);
    FillsComplete(Case(cfg, call), Pid(cfg, call), call);
    JobOfCall(cfg, call, 0);
  }
}
