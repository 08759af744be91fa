/** From the command line to the filter's map entry: `get_PID_to_trace` and `initialize_array`
    of src/eptracer.c, and what the filter makes of the entry. */
module Identifier {
  import opened CTypes
  import opened Numerals
  import opened TargetFilter
  import opened Tokenizer

  const MAX_PID_LEN := 10

  /** NULL, the process exits with status 1, or the identifier to trace. */
  datatype Outcome = NoTarget | Exit | Identifier(text: string)

  /** What `get_PID_to_trace` prints into its PID buffer. */
  function PidText(pid: int): string {
    Snprintf(MAX_PID_LEN, Dec(pid))
  }

  /** How the parent fares: the pipe, the fork or the read fails; the read finds the pipe closed and
      empty, because the child ended before it wrote; or it reads the PID the child wrote. */
  datatype Report = Failed | Nothing | Reported(pid: I32)

  /** `stale` is what the uninitialised PID variable holds; an empty read leaves it so, unnoticed. */
  method GetPidToTrace(processPid: string, program: array<char>, report: Report, stale: I32)
    returns (r: Outcome, argv: array<int>)
    requires |CString(program[..])| < program.Length
    modifies program
    ensures CString(processPid) != "" ==> r == Identifier(CString(processPid)) && program[..] == old(program[..])
    ensures CString(processPid) == "" ==>
              var line := old(CString(program[..]));
              if line == "" then r == NoTarget
              else if |line| > MAX_STR_LEN || report.Failed? then r == Exit
              else
                && (var shown := Dec(if report.Reported? then report.pid else stale);
                    r == Identifier(if |shown| < 10 then shown else shown[..9]))
                && IsArgv(argv[..], program[..], line, if ' ' in line then Runs(line, 0) else [])
  {
    argv := new int[ARGV_BYTES / 8];
    var pid := CString(processPid);
    if |pid| != 0 { return Identifier(pid), argv; }
    var line := CString(program[..]);
    if |line| != 0 {
      if |line| > MAX_STR_LEN { return Exit, argv; }
      var file := CreateExecvpArgs(program, argv);
      var pidToTrace := stale;
      match report {
        case Failed => return Exit, argv;
        case Nothing =>
        case Reported(p) => pidToTrace := p;
      }
      return Identifier(PidText(pidToTrace)), argv;
    }
    return NoTarget, argv;
  }

  /** A map value holding an identifier, zero-padded; a text of the full size has no terminator. */
  function Entry(text: string): (r: string)
    requires |text| <= MAX_PROGRAM_STRING_LEN
    ensures |r| == MAX_PROGRAM_STRING_LEN && r[..|text|] == text && forall i | |text| <= i < |r| :: r[i] == NUL
    ensures NUL !in text ==> CString(r) == text
  {
    var r := text + Zeros(MAX_PROGRAM_STRING_LEN - |text|);
    assert r[..|text|] == text;
    assert NUL !in text ==> CString(r) == text by {
      if NUL !in text { CStringIs(r, |text|); }
    }
    r
  }

  /** `programMap` holds the values of program_map; `error` is what bpf_map_update_elem returns,
      negative when it fails and leaves the map alone. */
  method InitializeArray(programMap: array<string>, identifier: string, error: int) returns (r: int)
    requires 0 < programMap.Length && NUL !in identifier
    modifies programMap
    ensures |identifier| > MAX_PROGRAM_STRING_LEN ==> r == -1 && programMap[..] == old(programMap[..])
    ensures |identifier| <= MAX_PROGRAM_STRING_LEN ==>
              && r == error
              && programMap[..] == if error < 0 then old(programMap[..]) else old(programMap[..])[0 := Entry(identifier)]
  {
    if |identifier| > MAX_PROGRAM_STRING_LEN { return -1; }
    var name := new char[MAX_PROGRAM_STRING_LEN];
    var i := 0;
    while i < MAX_PROGRAM_STRING_LEN  // strncpy(name, identifier, MAX_PROGRAM_STRING_LEN)
      invariant i <= MAX_PROGRAM_STRING_LEN && programMap[..] == old(programMap[..])
      invariant forall k | 0 <= k < i :: name[k] == if k < |identifier| then identifier[k] else NUL
    {
      name[i] := if i < |identifier| then identifier[i] else NUL;
      i := i + 1;
    }
    assert name[..] == Entry(identifier);
    if error >= 0 {
      programMap[0] := name[..];
    }
    return error;
  }

  // ----- the identifier chain as a whole

  /** The digits that survive the ten-byte buffer: all of them up to nine, and nine of ten. */
  function Kept(pid: nat): nat {
    if pid <= 999_999_999 then pid else pid / 10
  }

  lemma PidTextIsKept(pid: I32)
    requires 0 < pid
    ensures PidText(pid) == Numeral(Kept(pid), 10) && |PidText(pid)| < MAX_PID_LEN
  {
    Powers();
    NumeralLength(pid, 10, 9);
    NumeralLength(pid, 10, 10);
    if pid > 999_999_999 {
      assert Dec(pid)[..9] == Numeral(pid / 10, 10);
    }
  }

  lemma PidOfEntry(n: nat)
    requires n < TWO64 && |Numeral(n, 10)| <= MAX_PROGRAM_STRING_LEN
    ensures PidOf(Entry(Numeral(n, 10))) == n
  {
    var s, pad := Numeral(n, 10), MAX_PROGRAM_STRING_LEN - |Numeral(n, 10)|;
    assert Entry(s) == s + Zeros(pad);
    PidOfNumeral(n, pad);
    NoWrap(n);
  }

  /** Printed into ten bytes, copied into the map entry and parsed by the filter, a PID is kept
      exactly when it has at most nine digits; a tenth digit is dropped. */
  lemma PidRoundTrip(pid: I32)
    requires 0 < pid
    ensures |PidText(pid)| <= MAX_PROGRAM_STRING_LEN
    ensures PidOf(Entry(PidText(pid))) == pid <==> pid <= 999_999_999
    ensures pid > 999_999_999 ==> PidOf(Entry(PidText(pid))) == pid / 10
  {
    PidTextIsKept(pid);
    PidOfEntry(Kept(pid));
  }

  /** Tracing a spawned PID of at most nine digits selects the threads of that process, and besides
      only those whose command name happens to be the same digits. */
  lemma SpawnedProcessIsTheTarget(pid: I32, comm: string, tgid: U32)
    requires 0 < pid <= 999_999_999 && 0 < tgid && |comm| == MAX_PROGRAM_STRING_LEN
    ensures |PidText(pid)| <= MAX_PROGRAM_STRING_LEN
    ensures Target(Some(comm), Some(Entry(PidText(pid))), tgid) ==
            if tgid == pid || CString(comm) == Dec(pid) then tgid else 0
  {
    PidRoundTrip(pid);
    PidTextIsKept(pid);
    NumeralPlain(pid, 10);
    assert CString(Entry(PidText(pid))) == Dec(pid);
  }

  lemma PrefixOfPrefix(s: string, p: string, n: nat)
    requires n <= |p| <= |s| && s[..|p|] == p
    ensures s[..n] == p[..n] && (n < |p| ==> s[n] == p[n])
  {
    assert s[..|p|][..n] == s[..n];
  }

  lemma DigitRunOfEntry(identifier: string)
    requires |identifier| <= MAX_PROGRAM_STRING_LEN
    ensures DigitRun(Entry(identifier)) == DigitRun(identifier)
  {
    PrefixOfPrefix(Entry(identifier), identifier, |DigitRun(identifier)|);
    DigitRunIs(Entry(identifier), |DigitRun(identifier)|);
  }

  /** An identifier of any allowed length is kept in full, even one that fills the entry and leaves it
      without a terminator: it selects the processes of that name, and the process whose number its
      leading digits write, if it has any, modulo 2^64. */
  lemma IdentifierIsKept(identifier: string, comm: string, tgid: U32)
    requires NUL !in identifier && |identifier| <= MAX_PROGRAM_STRING_LEN && |comm| == MAX_PROGRAM_STRING_LEN
    ensures Target(Some(comm), Some(Entry(identifier)), tgid) ==
            if CString(comm) == identifier || Value(DigitRun(identifier), 10) % TWO64 == tgid then tgid else 0
  {
    DigitRunOfEntry(identifier);
  }
}
