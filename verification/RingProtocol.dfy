/** CPUs filling records and one consumer polling, all sharing the ring buffer syscall_rb_map. */
module RingProtocol {
  import opened CTypes
  import opened SyscallEvents
  import opened Producer
  import opened CaseWrites

  /** What an invocation that reserved a record goes on to do: its writes, whether it sends a signal
      after submitting, and the memory it was given. */
  datatype Job = Job(fills: seq<Fill>, kill: bool, stale: Event)

  predicate JobOk(job: Job) {
    FillsOk(job.fills) && job.stale.WellFormed()
  }

  /** No mandatory read fails. */
  predicate Clean(job: Job) {
    forall i | 0 <= i < |job.fills| :: !Aborts(job.fills[i])
  }

  function Final(job: Job): (e: Event)
    requires JobOk(job)
    ensures e.WellFormed()
  {
    After(job.fills, |job.fills|, job.stale)
  }

  /** A reservation and the job that made it. */
  datatype Cell = Cell(job: Job, slot: Slot)

  /** A CPU is outside the program, or about to do write `pc` of reservation `cell`. One past the
      last write it submits, and after that, for ptrace, it sends the signal. */
  datatype Cpu = Idle | Running(cell: nat, pc: nat)

  /** One call of the consumer's handler: the record and the time it read. */
  datatype Handled = Handled(rec: Event, microseconds: I64)

  /** `cells` holds every reservation ever made, in order; the first |clocks| have been consumed, at
      the times in `clocks`, and the others occupy the ring. */
  datatype State = State(cells: seq<Cell>, clocks: seq<I64>, cpus: seq<Cpu>, handled: seq<Handled>)

  function Init(n: nat): State {
    State([], [], seq(n, _ => Idle), [])
  }

  /** bpf_ringbuf_reserve refuses when the positions would end up a ring size or more apart. */
  predicate Room(s: State) {
    (|s.cells| - |s.clocks| + 1) * RECORD_SIZE < RING_SIZE
  }

  // ----- the invariant

  /** A submitted record is complete; a discarded one is not wanted. */
  predicate CellOk(cell: Cell) {
    && JobOk(cell.job) && cell.slot.rec.WellFormed()
    && (cell.slot.status == Submitted ==> Clean(cell.job) && cell.slot.rec == Final(cell.job))
    && (cell.slot.status == Discarded ==> !Clean(cell.job))
  }

  predicate CellsOk(cells: seq<Cell>) {
    forall k | 0 <= k < |cells| :: CellOk(cells[k])
  }

  /** The owner of the cell has done pc steps of its job. */
  predicate InMiddle(cell: Cell, pc: nat)
    requires JobOk(cell.job)
  {
    && cell.slot.kills == 0
    && if pc <= |cell.job.fills| then
         && cell.slot.status == Busy
         && cell.slot.rec == After(cell.job.fills, pc, cell.job.stale)
         && forall i | 0 <= i < pc :: !Aborts(cell.job.fills[i])
       else pc == |cell.job.fills| + 1 && cell.job.kill && cell.slot.status == Submitted
  }

  predicate CpuOk(cells: seq<Cell>, cpu: Cpu) {
    cpu.Running? ==> cpu.cell < |cells| && CellOk(cells[cpu.cell]) && InMiddle(cells[cpu.cell], cpu.pc)
  }

  predicate CpusOk(cells: seq<Cell>, cpus: seq<Cpu>) {
    && (forall c | 0 <= c < |cpus| :: CpuOk(cells, cpus[c]))
    && (forall c, d | 0 <= c < d < |cpus| && cpus[c].Running? && cpus[d].Running? :: cpus[c].cell != cpus[d].cell)
  }

  predicate Owned(cpus: seq<Cpu>, k: nat) {
    exists c | 0 <= c < |cpus| :: cpus[c].Running? && cpus[c].cell == k
  }

  /** Closed, and the signal sent if the record was submitted by a job that wants one. */
  predicate Settled(cell: Cell) {
    cell.slot.status != Busy && cell.slot.kills == if cell.job.kill && cell.slot.status == Submitted then 1 else 0
  }

  /** A reservation no CPU is working on is settled. */
  predicate NoneLeftOpen(cells: seq<Cell>, cpus: seq<Cpu>) {
    forall k | 0 <= k < |cells| :: Owned(cpus, k) || Settled(cells[k])
  }

  function Jobs(cells: seq<Cell>): (jobs: seq<Job>)
    ensures |jobs| == |cells| && forall k | 0 <= k < |jobs| :: jobs[k] == cells[k].job
  {
    seq(|cells|, k requires 0 <= k < |cells| => cells[k].job)
  }

  predicate JobsOk(jobs: seq<Job>) {
    forall k | 0 <= k < |jobs| :: JobOk(jobs[k])
  }

  /** What the consumer should have handled after as many reservations as there are clocks: the
      complete records of the jobs that were not given up, in reservation order. */
  function Expected(jobs: seq<Job>, clocks: seq<I64>): seq<Handled>
    requires |clocks| <= |jobs| && JobsOk(jobs)
    decreases |clocks|
  {
    if clocks == [] then []
    else
      var n := |clocks| - 1;
      var before := Expected(jobs, clocks[..n]);
      if Clean(jobs[n]) then before + [Handled(Final(jobs[n]), clocks[n])] else before
  }

  predicate Consumed(s: State) {
    && |s.clocks| <= |s.cells| <= |s.clocks| + 8
    && (forall k | 0 <= k < |s.clocks| :: s.cells[k].slot.status != Busy)
    && JobsOk(Jobs(s.cells))
    && s.handled == Expected(Jobs(s.cells), s.clocks)
  }

  predicate Inv(s: State) {
    CellsOk(s.cells) && CpusOk(s.cells, s.cpus) && NoneLeftOpen(s.cells, s.cpus) && Consumed(s)
  }

  // ----- steps

  predicate CanReserve(s: State, c: nat, job: Job) {
    c < |s.cpus| && s.cpus[c].Idle? && JobOk(job) && Room(s)
  }

  function Reserve(s: State, c: nat, job: Job): State
    requires CanReserve(s, c, job)
  {
    s.(cells := s.cells + [Cell(job, Slot(job.stale, Busy, 0))], cpus := s.cpus[c := Running(|s.cells|, 0)])
  }

  predicate CanAdvance(s: State, c: nat) {
    c < |s.cpus| && s.cpus[c].Running?
  }

  /** One statement of a case: a write (a failed mandatory read discards the record and returns), the
      submission, or the signal. */
  function NextCell(cell: Cell, pc: nat): Cell
    requires CellOk(cell) && InMiddle(cell, pc)
  {
    var n := |cell.job.fills|;
    if pc < n then
      var rec := Apply(cell.job.fills[pc], cell.slot.rec);
      cell.(slot := if Aborts(cell.job.fills[pc]) then Slot(rec, Discarded, cell.slot.kills) else cell.slot.(rec := rec))
    else if pc == n then cell.(slot := cell.slot.(status := Submitted))
    else cell.(slot := cell.slot.(kills := cell.slot.kills + 1))
  }

  function NextCpu(cell: Cell, k: nat, pc: nat): Cpu
    requires CellOk(cell) && InMiddle(cell, pc)
  {
    var n := |cell.job.fills|;
    if (pc < n && !Aborts(cell.job.fills[pc])) || (pc == n && cell.job.kill) then Running(k, pc + 1) else Idle
  }

  function Advance(s: State, c: nat): State
    requires Inv(s) && CanAdvance(s, c)
  {
    assert CpuOk(s.cells, s.cpus[c]);
    var Running(k, pc) := s.cpus[c];
    s.(cells := s.cells[k := NextCell(s.cells[k], pc)], cpus := s.cpus[c := NextCpu(s.cells[k], k, pc)])
  }

  predicate CanConsume(s: State) {
    |s.clocks| < |s.cells| && s.cells[|s.clocks|].slot.status != Busy
  }

  /** The poll loop passes the oldest record to the handler if it was submitted, and skips it if not. */
  function Consume(s: State, t: I64): State
    requires CanConsume(s)
  {
    var cell := s.cells[|s.clocks|];
    s.(clocks := s.clocks + [t],
       handled := if cell.slot.status == Submitted then s.handled + [Handled(cell.slot.rec, t)] else s.handled)
  }

  // ----- every step keeps the invariant

  lemma InitHasInv(n: nat)
    ensures Inv(Init(n))
  {
    assert Jobs([]) == [];
  }

  lemma RecordSize()
    ensures EVENT_SIZE == 448 && RECORD_SIZE == 456
  {
  }

  lemma RoomIsEight(s: State)
    ensures Room(s) <==> |s.cells| - |s.clocks| < 8
  {
    RecordSize();
  }

  /** The consumer's work does not depend on reservations made later. */
  lemma {:induction false} ExpectedOfPrefix(jobs: seq<Job>, more: seq<Job>, clocks: seq<I64>)
    requires |clocks| <= |jobs| && jobs <= more && JobsOk(more)
    ensures JobsOk(jobs) && Expected(jobs, clocks) == Expected(more, clocks)
    decreases |clocks|
  {
    assert forall k | 0 <= k < |jobs| :: jobs[k] == more[k];
    if clocks != [] { ExpectedOfPrefix(jobs, more, clocks[..|clocks| - 1]); }
  }

  lemma ReserveKeepsCells(s: State, c: nat, job: Job)
    requires Inv(s) && CanReserve(s, c, job)
    ensures var s' := Reserve(s, c, job);
            CellsOk(s'.cells) && CpusOk(s'.cells, s'.cpus) && NoneLeftOpen(s'.cells, s'.cpus)
  {
    var s' := Reserve(s, c, job);
    assert forall d | 0 <= d < |s.cpus| :: CpuOk(s.cells, s.cpus[d]);
    forall k | 0 <= k < |s'.cells|
      ensures Owned(s'.cpus, k) || Settled(s'.cells[k])
    {
      if k == |s.cells| {
        assert s'.cpus[c].cell == k;
      } else if Owned(s.cpus, k) {
        var d :| 0 <= d < |s.cpus| && s.cpus[d].Running? && s.cpus[d].cell == k;
        assert s'.cpus[d] == s.cpus[d];
      }
    }
  }

  lemma ReserveKeepsInv(s: State, c: nat, job: Job)
    requires Inv(s) && CanReserve(s, c, job)
    ensures Inv(Reserve(s, c, job))
  {
    var s' := Reserve(s, c, job);
    RoomIsEight(s);
    ReserveKeepsCells(s, c, job);
    assert Jobs(s.cells) <= Jobs(s'.cells);
    ExpectedOfPrefix(Jobs(s.cells), Jobs(s'.cells), s.clocks);
  }

  /** One statement moves a reservation on correctly, and an invocation ends only on a settled one. */
  lemma NextIsOk(cell: Cell, k: nat, pc: nat)
    requires CellOk(cell) && InMiddle(cell, pc)
    ensures var cell', cpu' := NextCell(cell, pc), NextCpu(cell, k, pc);
            && CellOk(cell') && cell'.job == cell.job
            && (cell.slot.status != Busy ==> cell'.slot.status == cell.slot.status && cell'.slot.rec == cell.slot.rec)
            && if cpu'.Running? then cpu'.cell == k && InMiddle(cell', cpu'.pc) else Settled(cell')
  {
  }

  lemma AdvanceKeepsCpus(s: State, c: nat)
    requires Inv(s) && CanAdvance(s, c)
    ensures CellsOk(Advance(s, c).cells) && CpusOk(Advance(s, c).cells, Advance(s, c).cpus)
  {
    assert CpuOk(s.cells, s.cpus[c]);
    var s', k, pc := Advance(s, c), s.cpus[c].cell, s.cpus[c].pc;
    NextIsOk(s.cells[k], k, pc);
    forall d | 0 <= d < |s'.cpus|
      ensures CpuOk(s'.cells, s'.cpus[d])
    {
      assert CpuOk(s.cells, s.cpus[d]);
      assert d != c && s.cpus[d].Running? ==> s.cpus[d].cell != k;
    }
  }

  lemma AdvanceKeepsOwners(s: State, c: nat)
    requires Inv(s) && CanAdvance(s, c)
    ensures NoneLeftOpen(Advance(s, c).cells, Advance(s, c).cpus)
  {
    assert CpuOk(s.cells, s.cpus[c]);
    var s', k, pc := Advance(s, c), s.cpus[c].cell, s.cpus[c].pc;
    NextIsOk(s.cells[k], k, pc);
    forall j | 0 <= j < |s'.cells|
      ensures Owned(s'.cpus, j) || Settled(s'.cells[j])
    {
      if j == k {
        assert s'.cpus[c].Running? ==> s'.cpus[c].cell == k;
      } else if Owned(s.cpus, j) {
        var d :| 0 <= d < |s.cpus| && s.cpus[d].Running? && s.cpus[d].cell == j;
        assert s'.cpus[d] == s.cpus[d];
      }
    }
  }

  lemma AdvanceKeepsInv(s: State, c: nat)
    requires Inv(s) && CanAdvance(s, c)
    ensures Inv(Advance(s, c))
  {
    AdvanceKeepsCpus(s, c);
    AdvanceKeepsOwners(s, c);
    assert CpuOk(s.cells, s.cpus[c]);
    var s', k, pc := Advance(s, c), s.cpus[c].cell, s.cpus[c].pc;
    NextIsOk(s.cells[k], k, pc);
    assert Jobs(s'.cells) == Jobs(s.cells);
  }

  lemma ConsumeKeepsInv(s: State, t: I64)
    requires Inv(s) && CanConsume(s)
    ensures Inv(Consume(s, t))
  {
    var s', k := Consume(s, t), |s.clocks|;
    assert CellOk(s.cells[k]);
    assert s'.clocks[..k] == s.clocks;
    assert Jobs(s.cells)[k] == s.cells[k].job;
  }

  // ----- consequences

  /** Every CPU is outside the program. */
  predicate Quiet(s: State) {
    forall c | 0 <= c < |s.cpus| :: s.cpus[c].Idle?
  }

  /** When every CPU is outside the program no reservation is open and every signal has been sent. */
  lemma QuietMeansSettled(s: State)
    requires Inv(s) && Quiet(s)
    ensures forall k | 0 <= k < |s.cells| :: Settled(s.cells[k])
  {
  }

  /** A step of a CPU keeps every reservation in place, and what it has closed as it is. */
  predicate Preserves(cells: seq<Cell>, cells': seq<Cell>) {
    && |cells| <= |cells'|
    && forall k | 0 <= k < |cells| ::
         && cells'[k].job == cells[k].job
         && (cells[k].slot.status != Busy ==>
               cells'[k].slot.status == cells[k].slot.status && cells'[k].slot.rec == cells[k].slot.rec)
  }

  lemma AdvancePreserves(s: State, c: nat)
    requires Inv(s) && CanAdvance(s, c)
    ensures Preserves(s.cells, Advance(s, c).cells)
  {
    assert CpuOk(s.cells, s.cpus[c]);
    NextIsOk(s.cells[s.cpus[c].cell], s.cpus[c].cell, s.cpus[c].pc);
  }

  // ----- accounting

  function Count(cells: seq<Cell>, p: Cell -> bool): nat {
    if cells == [] then 0 else Count(cells[..|cells| - 1], p) + if p(cells[|cells| - 1]) then 1 else 0
  }

  function KillsSent(cells: seq<Cell>): nat {
    if cells == [] then 0 else KillsSent(cells[..|cells| - 1]) + cells[|cells| - 1].slot.kills
  }

  predicate IsSubmitted(cell: Cell) {
    cell.slot.status == Submitted
  }

  predicate IsDiscarded(cell: Cell) {
    cell.slot.status == Discarded
  }

  predicate IsBusy(cell: Cell) {
    cell.slot.status == Busy
  }

  predicate IsPtrace(cell: Cell) {
    cell.job.kill && IsSubmitted(cell)
  }

  predicate AwaitsSignal(cell: Cell) {
    IsPtrace(cell) && cell.slot.kills == 0
  }

  lemma {:induction false} EveryCellHasOneStatus(cells: seq<Cell>)
    ensures |cells| == Count(cells, IsSubmitted) + Count(cells, IsDiscarded) + Count(cells, IsBusy)
  {
    if cells != [] { EveryCellHasOneStatus(cells[..|cells| - 1]); }
  }

  lemma {:induction false} NoneCounted(cells: seq<Cell>, p: Cell -> bool)
    requires forall k | 0 <= k < |cells| :: !p(cells[k])
    ensures Count(cells, p) == 0
  {
    if cells != [] { NoneCounted(cells[..|cells| - 1], p); }
  }

  /** A signal is sent only on account of a submitted ptrace record, and once. */
  predicate SignalOk(cell: Cell) {
    cell.slot.kills == 0 || (cell.slot.kills == 1 && cell.job.kill && cell.slot.status == Submitted)
  }

  lemma SignalsOk(s: State)
    requires Inv(s)
    ensures forall k | 0 <= k < |s.cells| :: SignalOk(s.cells[k])
  {
    forall k | 0 <= k < |s.cells|
      ensures SignalOk(s.cells[k])
    {
      if Owned(s.cpus, k) {
        var c :| 0 <= c < |s.cpus| && s.cpus[c].Running? && s.cpus[c].cell == k;
        assert CpuOk(s.cells, s.cpus[c]);
      }
    }
  }

  lemma {:induction false} SignalsAddUp(cells: seq<Cell>)
    requires forall k | 0 <= k < |cells| :: SignalOk(cells[k])
    ensures KillsSent(cells) + Count(cells, AwaitsSignal) == Count(cells, IsPtrace)
  {
    if cells != [] {
      SignalsAddUp(cells[..|cells| - 1]);
      assert SignalOk(cells[|cells| - 1]);
    }
  }

  /** Signals sent and signals about to be sent make up the submitted records that want one. */
  predicate OneSignalEach(s: State) {
    && KillsSent(s.cells) + Count(s.cells, AwaitsSignal) == Count(s.cells, IsPtrace)
    && (forall k | 0 <= k < |s.cells| :: SignalOk(s.cells[k]))
    && (forall k | 0 <= k < |s.cells| && AwaitsSignal(s.cells[k]) :: Owned(s.cpus, k))
    && (Quiet(s) ==> KillsSent(s.cells) == Count(s.cells, IsPtrace))
  }

  lemma SignalsFollowSubmissions(s: State)
    requires Inv(s)
    ensures OneSignalEach(s)
  {
    SignalsOk(s);
    SignalsAddUp(s.cells);
    if Quiet(s) {
      QuietMeansSettled(s);
      NoneCounted(s.cells, AwaitsSignal);
    }
  }
}
