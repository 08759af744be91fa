/** The kernel side of stack tracing: `get_stacktrace` of src/eptracer.bpf.c. */
module StackSampler {
  import opened CTypes
  import opened TargetFilter

  const MAX_STACK_RAWTP := 100
  const MAX_LEN := MAX_STACK_RAWTP * 8

  /** What bpf_get_stack answers: a negative error, or a byte count of at most the length asked for
      with that many bytes of addresses. The rest of the buffer keeps its contents or is cleared. */
  datatype Capture = Capture(ret: int, frames: seq<U64>, clears: bool) {
    predicate Ok() {
      -4095 <= ret <= MAX_LEN && |frames| == if ret < 0 then 0 else ret / 8
    }

    /** The buffer afterwards. */
    function Fill(buf: seq<U64>): (r: seq<U64>)
      requires Ok() && |buf| == MAX_STACK_RAWTP
      ensures |r| == MAX_STACK_RAWTP && frames <= r
    {
      frames + if clears then seq(MAX_STACK_RAWTP - |frames|, _ => 0) else buf[|frames|..]
    }
  }

  /** struct stack_trace_t; the kernel's size field is unsigned, the user's is not. */
  datatype Trace = Trace(pid: I32, kernSize: U64, userSize: I32, kern: seq<U64>, user: seq<U64>) {
    predicate WellFormed() {
      |kern| == MAX_STACK_RAWTP && |user| == MAX_STACK_RAWTP
    }
  }

  /** One firing of the perf event: the current thread and the two captures. */
  datatype Sample = Sample(comm: Option<string>, pidTgid: U64, kern: Capture, user: Capture)

  predicate SampleOk(s: Sample, target: Option<string>) {
    Buffers(s.comm, target) && s.kern.Ok() && s.user.Ok()
  }

  /** The PID of the thread that was interrupted. */
  function Tgid(s: Sample): U32 {
    s.pidTgid / TWO32
  }

  /** The slot after a sample: overwritten if the process is traced. */
  function Sampled(slot: Trace, s: Sample, target: Option<string>): (r: Trace)
    requires slot.WellFormed() && SampleOk(s, target)
    ensures r.WellFormed()
  {
    if !Selects(s.comm, target, Tgid(s)) then slot
    else Trace(ToI32(Tgid(s)), s.kern.ret % TWO64, s.user.ret, s.kern.Fill(slot.kern), s.user.Fill(slot.user))
  }

  /** The single element of stackdata_map on one CPU. */
  class PerCpuSlot {
    var pid: I32
    var kernSize: U64
    var userSize: I32
    const kern: array<U64>
    const user: array<U64>

    ghost predicate Valid() {
      kern.Length == MAX_STACK_RAWTP && user.Length == MAX_STACK_RAWTP && kern != user
    }

    ghost function Value(): (t: Trace)
      reads this, kern, user
      requires Valid()
      ensures t.WellFormed()
    {
      Trace(pid, kernSize, userSize, kern[..], user[..])
    }

    constructor ()
      ensures Valid() && fresh(kern) && fresh(user)
    {
      kern, user := new U64[MAX_STACK_RAWTP], new U64[MAX_STACK_RAWTP];
      pid, kernSize, userSize := 0, 0, 0;
    }
  }

  method BpfGetStack(buf: array<U64>, c: Capture) returns (ret: int)
    requires c.Ok() && buf.Length == MAX_STACK_RAWTP
    modifies buf
    ensures ret == c.ret && buf[..] == c.Fill(old(buf[..]))
  {
    var filled := c.Fill(buf[..]);
    forall i | 0 <= i < buf.Length { buf[i] := filled[i]; }
    ret := c.ret;
  }

  /** `data` is the result of the slot lookup; the copy handed to bpf_perf_event_output, if any. */
  method GetStacktrace(data: PerCpuSlot?, s: Sample, target: Option<string>) returns (emitted: Option<Trace>)
    requires SampleOk(s, target) && (data != null ==> data.Valid())
    modifies if data == null then {} else {data, data.kern, data.user}
    ensures emitted.Some? <==> data != null && Selects(s.comm, target, s.pidTgid / TWO32)
    ensures emitted.Some? ==> emitted.value == data.Value() == Sampled(old(data.Value()), s, target)
    ensures emitted.Some? ==>
              && data.pid == ToI32(s.pidTgid / TWO32) && data.kernSize == s.kern.ret % TWO64 && data.userSize == s.user.ret
              && data.kern[..] == s.kern.Fill(old(data.kern[..])) && data.user[..] == s.user.Fill(old(data.user[..]))
    ensures emitted.None? && data != null ==> data.Value() == old(data.Value())
  {
    if data == null { return None; }
    var pid := IsTargetProgram(s.comm, target, s.pidTgid);
    if pid == 0 { return None; }
    data.pid := ToI32(pid);
    var kernRet := BpfGetStack(data.kern, s.kern);
    data.kernSize := kernRet % TWO64;
    var userRet := BpfGetStack(data.user, s.user);
    data.userSize := userRet;
    emitted := Some(Trace(data.pid, data.kernSize, data.userSize, data.kern[..], data.user[..]));
  }

  // ----- what a reader takes for the captured frames

  /** `kern_stack_size / sizeof(__u64)` */
  function KernelClaim(t: Trace): nat {
    t.kernSize / 8
  }

  /** The user side is read only when its size is positive. */
  function UserClaim(t: Trace): nat {
    if t.userSize > 0 then t.userSize / 8 else 0
  }

  /** A sample shows its own frames, whatever the slot held: the user side always, errors included;
      the kernel side exactly when the helper did not fail, because a failure turns into a huge
      unsigned size. */
  lemma SampleIsolation(slot: Trace, s: Sample, target: Option<string>)
    requires slot.WellFormed() && SampleOk(s, target) && Selects(s.comm, target, s.pidTgid / TWO32)
    ensures var t := Sampled(slot, s, target);
            && UserClaim(t) <= MAX_STACK_RAWTP && t.user[..UserClaim(t)] == s.user.frames
            && (KernelClaim(t) <= MAX_STACK_RAWTP <==> s.kern.ret >= 0)
            && (s.kern.ret >= 0 ==> t.kern[..KernelClaim(t)] == s.kern.frames)
            && (s.kern.ret < 0 ==> KernelClaim(t) >= 0x1FFF_FFFF_FFFF_FE00)
  {
    if s.kern.ret < 0 {
      NegativeWraps(s.kern.ret);
    } else {
      NoWrap(s.kern.ret);
    }
  }

  lemma NegativeWraps(x: int)
    requires -4095 <= x < 0
    ensures x % TWO64 == x + TWO64
  {
    NoWrap(x + TWO64);
    assert x == -1 * TWO64 + (x + TWO64);
  }

  predicate SamplesOk(samples: seq<Sample>, target: Option<string>) {
    forall i | 0 <= i < |samples| :: SampleOk(samples[i], target)
  }

  /** The traces emitted by a sequence of samples that share one slot, those of other processes among
      them leaving it alone. */
  function Emitted(slot: Trace, samples: seq<Sample>, target: Option<string>): seq<Trace>
    requires slot.WellFormed() && SamplesOk(samples, target)
    decreases |samples|
  {
    if samples == [] then []
    else
      var n := |samples| - 1;
      Emitted(slot, samples[..n], target) +
        if Selects(samples[n].comm, target, Tgid(samples[n])) then [SlotAfter(slot, samples, target)] else []
  }

  /** The slot after a sequence of samples. */
  function SlotAfter(slot: Trace, samples: seq<Sample>, target: Option<string>): (t: Trace)
    requires slot.WellFormed() && SamplesOk(samples, target)
    ensures t.WellFormed()
    decreases |samples|
  {
    if samples == [] then slot
    else Sampled(SlotAfter(slot, samples[..|samples| - 1], target), samples[|samples| - 1], target)
  }

  /** A trace that names the sampled process and shows the frames captured for it, as far as
      SampleIsolation allows. */
  predicate IsOwn(t: Trace, s: Sample) {
    && t.WellFormed() && s.kern.Ok() && s.user.Ok() && t.pid == ToI32(s.pidTgid / TWO32)
    && UserClaim(t) <= MAX_STACK_RAWTP && t.user[..UserClaim(t)] == s.user.frames
    && (KernelClaim(t) <= MAX_STACK_RAWTP <==> s.kern.ret >= 0)
    && (s.kern.ret >= 0 ==> t.kern[..KernelClaim(t)] == s.kern.frames)
  }

  lemma OwnTrace(slot: Trace, s: Sample, target: Option<string>)
    requires slot.WellFormed() && SampleOk(s, target) && Selects(s.comm, target, s.pidTgid / TWO32)
    ensures IsOwn(Sampled(slot, s, target), s)
  {
    SampleIsolation(slot, s, target);
  }

  /** The positions of the samples of selected processes. */
  function SelectedPositions(samples: seq<Sample>, target: Option<string>): (idx: seq<nat>)
    ensures forall i: nat :: i in idx <==> i < |samples| && Selects(samples[i].comm, target, samples[i].pidTgid / TWO32)
    ensures forall k, l | 0 <= k < l < |idx| :: idx[k] < idx[l]
  {
    if samples == [] then []
    else
      var n := |samples| - 1;
      var idx := SelectedPositions(samples[..n], target);
      assert forall k | 0 <= k < |idx| :: idx[k] in idx;
      if Selects(samples[n].comm, target, Tgid(samples[n])) then idx + [n] else idx
  }

  /** However long a slot is reused, and whatever processes are sampled in between: the traces emitted
      are one for each sample of a selected process, in order, and each shows the frames of its own
      sample. */
  lemma {:induction false} EverySampleIsIsolated(slot: Trace, samples: seq<Sample>, target: Option<string>)
    requires slot.WellFormed() && SamplesOk(samples, target)
    ensures |Emitted(slot, samples, target)| == |SelectedPositions(samples, target)|
    ensures forall k | 0 <= k < |SelectedPositions(samples, target)| ::
              var i := SelectedPositions(samples, target)[k];
              i < |samples| && IsOwn(Emitted(slot, samples, target)[k], samples[i])
    decreases |samples|
  {
    if samples != [] {
      var n := |samples| - 1;
      EverySampleIsIsolated(slot, samples[..n], target);
      if Selects(samples[n].comm, target, Tgid(samples[n])) {
        OwnTrace(SlotAfter(slot, samples[..n], target), samples[n], target);
      }
    }
  }
}
