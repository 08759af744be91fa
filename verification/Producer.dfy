/** The kernel side of system-call tracing: `sys_enter_multiplexer` of src/eptracer.bpf.c. */
module Producer {
  import opened CTypes
  import opened TargetFilter
  import opened SyscallEvents

  const BINDER_WRITE_READ := 0xc0306201
  const BINDER_SET_CONTEXT_MGR := 0x40046207

  /** The labels of the switch. */
  datatype Syscall =
    | Ptrace | Read | Execve | Fork | Clone | Mprotect | Openat | Open | Mmap | Write | Chown | Mount
    | Umount2 | Umount | Ioctl | Setuid | Setgid | Capset | Prctl | Keyctl

  /** What is fixed at build and load time: the labels compiled in (each under its own #ifdef) by
      system-call number, the IS_ANDROID switch, and the map entry naming the target. */
  datatype Config = Config(cases: map<int, Syscall>, android: bool, target: Option<string>)

  /** One system-call entry and everything the kernel helpers will answer during it: whether the
      reservation succeeds, what the reserved memory holds, and what reading user memory at each
      argument yields (128 bytes, or None when it fails). */
  datatype Call = Call(id: int, args: seq<U64>, comm: Option<string>, pidTgid: U64,
                       granted: bool, stale: Event, texts: seq<Option<string>>)

  predicate IsRead(r: Option<string>) {
    r.Some? ==> |r.value| == MAX_BUF_SIZE
  }

  predicate CallOk(call: Call) {
    && |call.args| == 6 && |call.texts| == 6 && call.stale.WellFormed()
    && forall i | 0 <= i < 6 :: IsRead(call.texts[i])
  }

  predicate Possible(cfg: Config, call: Call) {
    CallOk(call) && Buffers(call.comm, cfg.target)
  }

  function Pid(cfg: Config, call: Call): I32 {
    ToI32(Target(call.comm, cfg.target, call.pidTgid / TWO32))
  }

  // ----- what the record of a call holds once its case is through

  function KindOf(s: Syscall): int
    requires s != Open
  {
    match s
    case Ptrace => EVENT_PTRACE
    case Read => EVENT_READ
    case Execve => EVENT_EXECVE
    case Fork => EVENT_FORK
    case Clone => EVENT_CLONE
    case Mprotect => EVENT_MPROTECT
    case Openat => EVENT_OPENAT
    case Mmap => EVENT_MMAP
    case Write => EVENT_WRITE
    case Chown => EVENT_CHOWN
    case Mount => EVENT_MOUNT
    case Umount2 => EVENT_UMOUNT
    case Umount => EVENT_UMOUNT
    case Ioctl => EVENT_IOCTL
    case Setuid => EVENT_SETUID
    case Setgid => EVENT_SETGID
    case Capset => EVENT_CAPSET
    case Prctl => EVENT_PRCTL
    case Keyctl => EVENT_KEYCTL
  }

  /** bpf_probe_read_user fills the 128 bytes, or fails and zeroes them. */
  function Probed(data: Option<string>): (s: string)
    requires IsRead(data)
    ensures |s| == MAX_BUF_SIZE
  {
    if data.Some? then data.value else Zeros(MAX_BUF_SIZE)
  }

  /** How a record keeps an argument: as a number at its position, or as a copy of the text it points to. */
  datatype Place = Number | Copied(w: Which)

  /** The arguments that the record of a call keeps, by position. */
  function Places(s: Syscall): (places: seq<Place>)
    requires s != Open
    ensures |places| <= 6
  {
    match s
    case Fork => []
    case Setuid | Setgid => [Number]
    case Capset => [Number, Number]
    case Read | Mprotect | Write | Ioctl => [Number, Number, Number]
    case Ptrace | Clone => [Number, Number, Number, Number]
    case Prctl | Keyctl => [Number, Number, Number, Number, Number]
    case Mmap => [Number, Number, Number, Number, Number, Number]
    case Execve | Chown => [Copied(Str1), Number, Number]
    case Openat => [Number, Copied(Str1), Number, Number]
    case Umount2 | Umount => [Copied(Str1), Number]
    case Mount => [Copied(Str1), Copied(Str2), Copied(Str3), Number, Number]
  }

  predicate KeepsNumber(s: Syscall, i: nat)
    requires s != Open
  {
    i < |Places(s)| && Places(s)[i].Number?
  }

  /** A ptrace record carries the PID of the tracee, every other one that of the caller. */
  function RecordPid(s: Syscall, pid: I32, call: Call): I32
    requires CallOk(call)
  {
    if s.Ptrace? then ToI32(call.args[1]) else pid
  }

  /** The record of a call whose case is through: its type and PID, each argument kept as a number,
      each text kept with a terminator behind it, and elsewhere what the memory held before. */
  ghost predicate Complete(s: Syscall, pid: I32, call: Call, e: Event)
    requires s != Open && CallOk(call)
  {
    && e.WellFormed() && e.kind == KindOf(s) && e.pid == RecordPid(s, pid, call)
    && (forall i | 0 <= i < 6 :: e.args[i] == if KeepsNumber(s, i) then call.args[i] else call.stale.args[i])
    && (forall i | 0 <= i < |Places(s)| && Places(s)[i].Copied? ::
          e.Str(Places(s)[i].w) == Probed(call.texts[i]) + [NUL])
    && (forall w: Which | Copied(w) !in Places(s) :: e.Str(w) == call.stale.Str(w))
  }

  // ----- what the switch does with a call

  /** What the switch does with a call: nothing; only a debug message; nothing because the ioctl is
      not for the binder; or the writes of a case to a record, followed by a signal for ptrace. */
  datatype Plan = Ignore | PrintOnly | Filtered | Record(s: Syscall)

  function PlanOf(cfg: Config, call: Call): (p: Plan)
    requires Possible(cfg, call)
    ensures p.Record? ==> p.s != Open
  {
    if Pid(cfg, call) == 0 || call.id !in cfg.cases then Ignore
    else
      var s := cfg.cases[call.id];
      if s.Open? then PrintOnly
      else if s.Ioctl? && cfg.android && call.args[1] != BINDER_WRITE_READ && call.args[1] != BINDER_SET_CONTEXT_MGR
      then Filtered
      else Record(s)
  }

  /** What decides about a call: the process filter, the label compiled in for its number, and for an
      ioctl on Android its command. */
  lemma PlanFollowsTheLabel(cfg: Config, call: Call)
    requires Possible(cfg, call)
    ensures var tgid := call.pidTgid / TWO32;
            var labelled := Selects(call.comm, cfg.target, tgid) && call.id in cfg.cases;
            var forBinder := call.args[1] == 0xc0306201 || call.args[1] == 0x40046207;
            && (PlanOf(cfg, call).Ignore? <==> !labelled)
            && (PlanOf(cfg, call).PrintOnly? <==> labelled && cfg.cases[call.id] == Open)
            && (PlanOf(cfg, call).Filtered? <==> labelled && cfg.cases[call.id] == Ioctl && cfg.android && !forBinder)
            && (PlanOf(cfg, call).Record? <==>
                  labelled && cfg.cases[call.id] != Open && (cfg.cases[call.id] == Ioctl && cfg.android ==> forBinder))
            && (PlanOf(cfg, call).Record? ==> PlanOf(cfg, call).s == cfg.cases[call.id] && Pid(cfg, call) == ToI32(tgid))
  {
    TargetIsSelected(call.comm, cfg.target, call.pidTgid / TWO32);
  }

  /** The path of these calls must be readable; nothing else can stop a record. */
  predicate PathReadable(s: Syscall, call: Call)
    requires CallOk(call)
  {
    match s
    case Execve | Chown | Umount2 | Umount => call.texts[0].Some?
    case Openat => call.texts[1].Some?
    case _ => true
  }

  // ----- the ring as one invocation sees it

  datatype Status = Busy | Submitted | Discarded

  /** A reservation: its record in ring memory, its state, and the kill signals sent on its account. */
  datatype Slot = Slot(rec: Event, status: Status, kills: nat)

  /** The slot a finished invocation of case s leaves in the ring. */
  ghost predicate IsFinished(s: Syscall, pid: I32, call: Call, slot: Slot)
    requires s != Open && CallOk(call)
  {
    && slot.status == (if PathReadable(s, call) then Submitted else Discarded)
    && (PathReadable(s, call) ==> Complete(s, pid, call, slot.rec))
    && slot.kills == if s.Ptrace? then 1 else 0
  }

  /** The effect of case s on the ring: one more finished reservation, if there was room. */
  ghost predicate CaseDone(s: Syscall, pid: I32, call: Call, before: seq<Slot>, after: seq<Slot>)
    requires s != Open && CallOk(call)
  {
    if call.granted then
      |after| == |before| + 1 && after[..|before|] == before && IsFinished(s, pid, call, after[|before|])
    else after == before
  }

  /** The ring buffer and the trace log; reservations of other CPUs are left to RingProtocol. */
  class Kernel {
    var slots: seq<Slot>
    var messages: seq<(U32, U32)>

    method Reserve(call: Call) returns (ev: EventRecord?)
      requires call.stale.WellFormed()
      modifies `slots
      ensures ev == null <==> !call.granted
      ensures ev == null ==> slots == old(slots)
      ensures ev != null ==>
                && fresh(ev) && fresh(ev.args) && fresh(ev.str1) && fresh(ev.str2) && fresh(ev.str3)
                && ev.Valid() && ev.Value() == call.stale
                && slots == old(slots) + [Slot(call.stale, Busy, 0)]
    {
      if !call.granted { return null; }
      ev := new EventRecord(call.stale);
      slots := slots + [Slot(call.stale, Busy, 0)];
    }

    /** The last reservation becomes visible to the consumer, or is given up. */
    method Close(ev: EventRecord, status: Status)
      requires ev.Valid() && slots != [] && slots[|slots| - 1].status == Busy && status != Busy
      modifies `slots
      ensures slots == old(slots)[|old(slots)| - 1 := old(slots)[|old(slots)| - 1].(rec := ev.Value(), status := status)]
    {
      var last := slots[|slots| - 1];
      var e := Event(ev.kind, ev.pid, ev.args[..], ev.str1[..], ev.str2[..], ev.str3[..]);
      slots := slots[|slots| - 1 := last.(rec := e, status := status)];
    }

    /** bpf_send_signal to the calling process, which must not come before the submission. */
    method SendSignal()
      requires slots != [] && slots[|slots| - 1].status == Submitted
      modifies `slots
      ensures slots == old(slots)[|old(slots)| - 1 := old(slots)[|old(slots)| - 1].(kills := old(slots)[|old(slots)| - 1].kills + 1)]
    {
      var last := slots[|slots| - 1];
      slots := slots[|slots| - 1 := last.(kills := last.kills + 1)];
    }
  }

  method ProbeReadUser(dst: array<char>, data: Option<string>) returns (ret: int)
    requires dst.Length == STR_SIZE && IsRead(data)
    modifies dst
    ensures ret < 0 <==> data.None?
    ensures dst[..] == Probed(data) + [old(dst[MAX_BUF_SIZE])]
    ensures forall i | 0 <= i < MAX_BUF_SIZE :: dst[i] == if data.Some? then data.value[i] else NUL
  {
    var bytes := Probed(data);
    forall i | 0 <= i < MAX_BUF_SIZE {
      dst[i] := bytes[i];
    }
    ret := if data.Some? then 0 else -14;
  }

  // ----- the cases of the switch, one method each

  method OnPtrace(call: Call, pid: I32, k: Kernel)
    requires CallOk(call)
    modifies k`slots
    ensures CaseDone(Ptrace, pid, call, old(k.slots), k.slots)
    ensures call.granted ==> k.slots[|k.slots| - 1].rec.pid == ToI32(call.args[1])
  {
    var ev := k.Reserve(call);
    if ev == null { return; }
    ev.kind := EVENT_PTRACE;
    ev.pid := ToI32(call.args[1]);
    ev.args[0] := call.args[0];
    ev.args[1] := call.args[1];
    ev.args[2] := call.args[2];
    ev.args[3] := call.args[3];
    k.Close(ev, Submitted);
    k.SendSignal();
  }

  method OnRead(call: Call, pid: I32, k: Kernel)
    requires CallOk(call)
    modifies k`slots
    ensures CaseDone(Read, pid, call, old(k.slots), k.slots)
  {
    var ev := k.Reserve(call);
    if ev == null { return; }
    ev.kind := EVENT_READ;
    ev.pid := pid;
    ev.args[0] := call.args[0];
    ev.args[1] := call.args[1];
    ev.args[2] := call.args[2];
    k.Close(ev, Submitted);
  }

  method OnExecve(call: Call, pid: I32, k: Kernel)
    requires CallOk(call)
    modifies k`slots
    ensures CaseDone(Execve, pid, call, old(k.slots), k.slots)
  {
    var ev := k.Reserve(call);
    if ev == null { return; }
    ev.kind := EVENT_EXECVE;
    ev.pid := pid;
    ev.args[1] := call.args[1];
    ev.args[2] := call.args[2];
    var ret := ProbeReadUser(ev.str1, call.texts[0]);
    if ret < 0 {
      k.Close(ev, Discarded);
      return;
    }
    ev.str1[MAX_BUF_SIZE] := NUL;
    k.Close(ev, Submitted);
  }

  method OnFork(call: Call, pid: I32, k: Kernel)
    requires CallOk(call)
    modifies k`slots
    ensures CaseDone(Fork, pid, call, old(k.slots), k.slots)
  {
    var ev := k.Reserve(call);
    if ev == null { return; }
    ev.kind := EVENT_FORK;
    ev.pid := pid;
    k.Close(ev, Submitted);
  }

  method OnClone(call: Call, pid: I32, k: Kernel)
    requires CallOk(call)
    modifies k`slots
    ensures CaseDone(Clone, pid, call, old(k.slots), k.slots)
  {
    var ev := k.Reserve(call);
    if ev == null { return; }
    ev.kind := EVENT_CLONE;
    ev.pid := pid;
    ev.args[0] := call.args[0];
    ev.args[1] := call.args[1];
    ev.args[2] := call.args[2];
    ev.args[3] := call.args[3];
    k.Close(ev, Submitted);
  }

  method OnMprotect(call: Call, pid: I32, k: Kernel)
    requires CallOk(call)
    modifies k`slots
    ensures CaseDone(Mprotect, pid, call, old(k.slots), k.slots)
  {
    var ev := k.Reserve(call);
    if ev == null { return; }
    ev.kind := EVENT_MPROTECT;
    ev.pid := pid;
    ev.args[0] := call.args[0];
    ev.args[1] := call.args[1];
    ev.args[2] := call.args[2];
    k.Close(ev, Submitted);
  }

  method OnOpenat(call: Call, pid: I32, k: Kernel)
    requires CallOk(call)
    modifies k`slots
    ensures CaseDone(Openat, pid, call, old(k.slots), k.slots)
  {
    var ev := k.Reserve(call);
    if ev == null { return; }
    var ret := ProbeReadUser(ev.str1, call.texts[1]);
    if ret < 0 {
      k.Close(ev, Discarded);
      return;
    }
    ev.str1[MAX_BUF_SIZE] := NUL;
    ev.kind := EVENT_OPENAT;
    ev.pid := pid;
    ev.args[0] := call.args[0];
    ev.args[2] := call.args[2];
    ev.args[3] := call.args[3];
    k.Close(ev, Submitted);
  }

  lemma MmapIsComplete(pid: I32, call: Call, e: Event)
    requires CallOk(call) && e.kind == EVENT_MMAP && e.pid == pid && e.args == call.args
    requires e == call.stale.(kind := e.kind, pid := e.pid, args := e.args)
    ensures Complete(Mmap, pid, call, e)
  {
  }

  method OnMmap(call: Call, pid: I32, k: Kernel)
    requires CallOk(call)
    modifies k`slots
    ensures CaseDone(Mmap, pid, call, old(k.slots), k.slots)
  {
    var ev := k.Reserve(call);
    if ev == null { return; }
    ev.kind := EVENT_MMAP;
    ev.pid := pid;
    ev.args[0] := call.args[0];
    ev.args[1] := call.args[1];
    ev.args[2] := call.args[2];
    ev.args[3] := call.args[3];
    ev.args[4] := call.args[4];
    ev.args[5] := call.args[5];
    assert ev.args[..] == call.args;
    MmapIsComplete(pid, call, ev.Value());
    k.Close(ev, Submitted);
  }

  method OnWrite(call: Call, pid: I32, k: Kernel)
    requires CallOk(call)
    modifies k`slots
    ensures CaseDone(Write, pid, call, old(k.slots), k.slots)
  {
    var ev := k.Reserve(call);
    if ev == null { return; }
    ev.kind := EVENT_WRITE;
    ev.pid := pid;
    ev.args[0] := call.args[0];
    ev.args[1] := call.args[1];
    ev.args[2] := call.args[2];
    k.Close(ev, Submitted);
  }

  method OnChown(call: Call, pid: I32, k: Kernel)
    requires CallOk(call)
    modifies k`slots
    ensures CaseDone(Chown, pid, call, old(k.slots), k.slots)
  {
    var ev := k.Reserve(call);
    if ev == null { return; }
    var ret := ProbeReadUser(ev.str1, call.texts[0]);
    if ret < 0 {
      k.Close(ev, Discarded);
      return;
    }
    ev.str1[MAX_BUF_SIZE] := NUL;
    ev.kind := EVENT_CHOWN;
    ev.pid := pid;
    ev.args[1] := call.args[1];
    ev.args[2] := call.args[2];
    k.Close(ev, Submitted);
  }

  lemma MountIsComplete(pid: I32, call: Call, e: Event)
    requires CallOk(call) && e.WellFormed() && e.kind == EVENT_MOUNT && e.pid == pid
    requires e.args == call.stale.args[3 := call.args[3]][4 := call.args[4]]
    requires e.str1 == Probed(call.texts[0]) + [NUL]
    requires e.str2 == Probed(call.texts[1]) + [NUL]
    requires e.str3 == Probed(call.texts[2]) + [NUL]
    ensures Complete(Mount, pid, call, e)
  {
  }

  method OnMount(call: Call, pid: I32, k: Kernel)
    requires CallOk(call)
    modifies k`slots
    ensures CaseDone(Mount, pid, call, old(k.slots), k.slots)
  {
    var ev := k.Reserve(call);
    if ev == null { return; }
    var _ := ProbeReadUser(ev.str1, call.texts[0]);
    var _ := ProbeReadUser(ev.str2, call.texts[1]);
    var _ := ProbeReadUser(ev.str3, call.texts[2]);
    ev.str3[MAX_BUF_SIZE] := NUL;
    ev.str2[MAX_BUF_SIZE] := NUL;
    ev.str1[MAX_BUF_SIZE] := NUL;
    assert ev.str1[..] == Probed(call.texts[0]) + [NUL];
    assert ev.str2[..] == Probed(call.texts[1]) + [NUL];
    assert ev.str3[..] == Probed(call.texts[2]) + [NUL];
    ev.kind := EVENT_MOUNT;
    ev.pid := pid;
    ev.args[3] := call.args[3];
    ev.args[4] := call.args[4];
    MountIsComplete(pid, call, ev.Value());
    k.Close(ev, Submitted);
  }

  method OnUmount(call: Call, pid: I32, k: Kernel)
    requires CallOk(call)
    modifies k`slots
    ensures CaseDone(Umount, pid, call, old(k.slots), k.slots)
  {
    var ev := k.Reserve(call);
    if ev == null { return; }
    var ret := ProbeReadUser(ev.str1, call.texts[0]);
    if ret < 0 {
      k.Close(ev, Discarded);
      return;
    }
    ev.str1[MAX_BUF_SIZE] := NUL;
    ev.kind := EVENT_UMOUNT;
    ev.pid := pid;
    ev.args[1] := call.args[1];
    k.Close(ev, Submitted);
  }

  method OnIoctl(call: Call, pid: I32, k: Kernel)
    requires CallOk(call)
    modifies k`slots
    ensures CaseDone(Ioctl, pid, call, old(k.slots), k.slots)
  {
    var ev := k.Reserve(call);
    if ev == null { return; }
    ev.kind := EVENT_IOCTL;
    ev.pid := pid;
    ev.args[0] := call.args[0];
    ev.args[1] := call.args[1];
    ev.args[2] := call.args[2];
    k.Close(ev, Submitted);
  }

  method OnSetuid(call: Call, pid: I32, k: Kernel)
    requires CallOk(call)
    modifies k`slots
    ensures CaseDone(Setuid, pid, call, old(k.slots), k.slots)
  {
    var ev := k.Reserve(call);
    if ev == null { return; }
    ev.kind := EVENT_SETUID;
    ev.pid := pid;
    ev.args[0] := call.args[0];
    k.Close(ev, Submitted);
  }

  method OnSetgid(call: Call, pid: I32, k: Kernel)
    requires CallOk(call)
    modifies k`slots
    ensures CaseDone(Setgid, pid, call, old(k.slots), k.slots)
  {
    var ev := k.Reserve(call);
    if ev == null { return; }
    ev.kind := EVENT_SETGID;
    ev.pid := pid;
    ev.args[0] := call.args[0];
    k.Close(ev, Submitted);
  }

  method OnCapset(call: Call, pid: I32, k: Kernel)
    requires CallOk(call)
    modifies k`slots
    ensures CaseDone(Capset, pid, call, old(k.slots), k.slots)
  {
    var ev := k.Reserve(call);
    if ev == null { return; }
    ev.kind := EVENT_CAPSET;
    ev.pid := pid;
    ev.args[0] := call.args[0];
    ev.args[1] := call.args[1];
    k.Close(ev, Submitted);
  }

  method OnPrctl(call: Call, pid: I32, k: Kernel)
    requires CallOk(call)
    modifies k`slots
    ensures CaseDone(Prctl, pid, call, old(k.slots), k.slots)
  {
    var ev := k.Reserve(call);
    if ev == null { return; }
    ev.kind := EVENT_PRCTL;
    ev.pid := pid;
    ev.args[0] := call.args[0];
    ev.args[1] := call.args[1];
    ev.args[2] := call.args[2];
    ev.args[3] := call.args[3];
    ev.args[4] := call.args[4];
    k.Close(ev, Submitted);
  }

  method OnKeyctl(call: Call, pid: I32, k: Kernel)
    requires CallOk(call)
    modifies k`slots
    ensures CaseDone(Keyctl, pid, call, old(k.slots), k.slots)
  {
    var ev := k.Reserve(call);
    if ev == null { return; }
    ev.kind := EVENT_KEYCTL;
    ev.pid := pid;
    ev.args[0] := call.args[0];
    ev.args[1] := call.args[1];
    ev.args[2] := call.args[2];
    ev.args[3] := call.args[3];
    ev.args[4] := call.args[4];
    k.Close(ev, Submitted);
  }

  /** What an invocation for a traced process leaves when it got a record: one more reservation, closed.
      It is given up exactly when the path of the call could not be read, and otherwise submitted with
      the complete record of the call, carrying the PID of the tracee for ptrace and of the caller for
      all others. A signal is sent for ptrace. */
  ghost predicate Leaves(s: Syscall, call: Call, before: seq<Slot>, after: seq<Slot>)
    requires s != Open && CallOk(call)
  {
    && |after| == |before| + 1 && after[..|before|] == before
    && var slot, pid := after[|before|], ToI32(call.pidTgid / TWO32);
    && slot.status == (
         if (s in {Execve, Chown, Umount2, Umount} && call.texts[0].None?) || (s == Openat && call.texts[1].None?)
         then Discarded else Submitted)
    && (slot.status == Submitted ==>
          Complete(s, pid, call, slot.rec) && slot.rec.pid == if s == Ptrace then ToI32(call.args[1]) else pid)
    && slot.kills == if s == Ptrace then 1 else 0
  }

  method SysEnterMultiplexer(cfg: Config, call: Call, k: Kernel)
    requires Possible(cfg, call)
    modifies k
    ensures k.slots != old(k.slots) <==>
              && Selects(call.comm, cfg.target, call.pidTgid / TWO32) && call.id in cfg.cases && call.granted
              && cfg.cases[call.id] != Open
              && (cfg.cases[call.id] == Ioctl && cfg.android ==> call.args[1] == 0xc0306201 || call.args[1] == 0x40046207)
    ensures k.slots != old(k.slots) ==> Leaves(cfg.cases[call.id], call, old(k.slots), k.slots)
    ensures k.messages == old(k.messages) +
              if Selects(call.comm, cfg.target, call.pidTgid / TWO32) && call.id in cfg.cases
                 && cfg.cases[call.id] == Open && call.texts[0].Some?
              then [(call.args[1] % TWO32, call.args[2] % TWO32)] else []
  {
    PlanFollowsTheLabel(cfg, call);
    var tgid := IsTargetProgram(call.comm, cfg.target, call.pidTgid);
    var pid := ToI32(tgid);
    if pid == 0 { return; }
    if call.id !in cfg.cases { return; }
    match cfg.cases[call.id] {
      case Ptrace => OnPtrace(call, pid, k);
      case Read => OnRead(call, pid, k);
      case Execve => OnExecve(call, pid, k);
      case Fork => OnFork(call, pid, k);
      case Clone => OnClone(call, pid, k);
      case Mprotect => OnMprotect(call, pid, k);
      case Openat => OnOpenat(call, pid, k);
      case Open =>
        if call.texts[0].None? { return; }
        k.messages := k.messages + [(call.args[1] % TWO32, call.args[2] % TWO32)];
      case Mmap => OnMmap(call, pid, k);
      case Write => OnWrite(call, pid, k);
      case Chown => OnChown(call, pid, k);
      case Mount => OnMount(call, pid, k);
      case Umount2 => OnUmount(call, pid, k);
      case Umount => OnUmount(call, pid, k);
      case Ioctl =>
        if cfg.android {
          if call.args[1] != BINDER_WRITE_READ && call.args[1] != BINDER_SET_CONTEXT_MGR { return; }
        }
        OnIoctl(call, pid, k);
      case Setuid => OnSetuid(call, pid, k);
      case Setgid => OnSetgid(call, pid, k);
      case Capset => OnCapset(call, pid, k);
      case Prctl => OnPrctl(call, pid, k);
      case Keyctl => OnKeyctl(call, pid, k);
    }
  }
}
