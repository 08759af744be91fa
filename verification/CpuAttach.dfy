/** The attach loop of `stack_tracer` in src/tracers/stacktrace.c. */
module CpuAttach {
  import opened CTypes

  /** The answers of the system for one CPU: the descriptor of its perf event, negative on failure,
      and whether the program could be attached to it. */
  datatype Answer = Answer(fd: I32, attaches: bool)

  /** `mask` has num_online_cpus elements; a CPU beyond it is offline. `stopped` is the CPU at which
      the loop ended. */
  method AttachAll(mask: seq<bool>, numCpus: nat, answers: seq<Answer>)
    returns (ok: bool, perfds: array<int>, links: array<bool>, stopped: nat)
    requires |answers| == numCpus
    ensures perfds.Length == numCpus && links.Length == numCpus && stopped <= numCpus
    ensures ok <==> forall c | 0 <= c < numCpus && c < |mask| && mask[c] :: answers[c].fd >= 0 && answers[c].attaches
    ensures ok <==> stopped == numCpus
    ensures forall c | 0 <= c < stopped ::
              if c < |mask| && mask[c] then perfds[c] == answers[c].fd >= 0 && links[c]
              else perfds[c] == -1 && !links[c]
    ensures !ok ==>
              && stopped < |mask| && mask[stopped] && !(answers[stopped].fd >= 0 && answers[stopped].attaches)
              && !links[stopped] && perfds[stopped] == (if answers[stopped].fd >= 0 then answers[stopped].fd else -1)
    ensures forall c | stopped < c < numCpus :: perfds[c] == -1 && !links[c]
  {
    perfds := new int[numCpus];
    var i := 0;
    while i < numCpus
      invariant i <= numCpus && forall c | 0 <= c < i :: perfds[c] == -1
    {
      perfds[i] := -1;
      i := i + 1;
    }
    links := new bool[numCpus](_ => false);
    var cpu := 0;
    while cpu < numCpus
      invariant cpu <= numCpus
      invariant forall c | 0 <= c < cpu && c < |mask| && mask[c] :: answers[c].fd >= 0 && answers[c].attaches
      invariant forall c | 0 <= c < cpu ::
                  if c < |mask| && mask[c] then perfds[c] == answers[c].fd >= 0 && links[c]
                  else perfds[c] == -1 && !links[c]
      invariant forall c | cpu <= c < numCpus :: perfds[c] == -1 && !links[c]
    {
      if cpu >= |mask| || !mask[cpu] {
        cpu := cpu + 1;
        continue;
      }
      var perfd := answers[cpu].fd;
      if perfd < 0 { return false, perfds, links, cpu; }
      perfds[cpu] := perfd;
      links[cpu] := answers[cpu].attaches;
      if !links[cpu] { return false, perfds, links, cpu; }
      cpu := cpu + 1;
    }
    return true, perfds, links, cpu;
  }
}
