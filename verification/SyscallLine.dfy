/** Producer and consumer together: the line printed for a system call shows that call. */
module SyscallLine {
  import opened CTypes
  import opened SyscallEvents
  import opened Producer
  import opened CaseWrites
  import opened Numerals
  import opened MetricLine
  import opened Consumer

  // ----- what a call should print, from its own signature

  /** How a call is labelled. */
  function Label(s: Syscall): string {
    match s
    case Ptrace => "ptrace"
    case Read => "read"
    case Execve => "execve"
    case Fork => "fork"
    case Clone => "clone"
    case Mprotect => "mprotect"
    case Openat => "openat"
    case Open => "open"
    case Mmap => "mmap"
    case Write => "write"
    case Chown => "chown"
    case Mount => "mount"
    case Umount2 | Umount => "umount"
    case Ioctl => "binder_ioctl"
    case Setuid => "setuid"
    case Setgid => "setgid"
    case Capset => "capset"
    case Prctl => "prctl"
    case Keyctl => "keyctl"
  }

  /** How the value of a parameter is written. */
  datatype Notation = Int | Unsigned | Hex | Address | Quoted

  datatype Parameter = Parameter(name: string, notation: Notation)

  /** A call's parameters, in the order of its arguments. */
  function Parameters(s: Syscall): (ps: seq<Parameter>)
    ensures |ps| <= 6
  {
    match s
    case Ptrace => [Parameter("request", Int), Parameter("pid", Int), Parameter("addr", Address),
                    Parameter("data", Address)]
    case Read | Write => [Parameter("fd", Int), Parameter("buf", Address), Parameter("count", Unsigned)]
    case Execve => [Parameter("filename", Quoted), Parameter("argv", Address), Parameter("envp", Address)]
    case Fork => []
    case Clone => [Parameter("flags", Hex), Parameter("child_stack", Address), Parameter("parent_tid", Address),
                   Parameter("child_tid", Address)]
    case Mprotect => [Parameter("addr", Address), Parameter("len", Unsigned), Parameter("prot", Int)]
    case Openat => [Parameter("fd", Int), Parameter("filename", Quoted), Parameter("flags", Int), Parameter("mode", Int)]
    case Open => [Parameter("filename", Quoted), Parameter("flags", Int), Parameter("mode", Int)]
    case Mmap => [Parameter("addr", Address), Parameter("length", Unsigned), Parameter("prot", Int),
                  Parameter("flags", Int), Parameter("fd", Int), Parameter("off", Unsigned)]
    case Chown => [Parameter("filename", Quoted), Parameter("uid", Int), Parameter("gid", Int)]
    case Mount => [Parameter("source", Quoted), Parameter("target", Quoted), Parameter("fstype", Quoted),
                   Parameter("flags", Hex), Parameter("data", Address)]
    case Umount2 | Umount => [Parameter("target", Quoted), Parameter("flags", Int)]
    case Ioctl => [Parameter("fd", Int), Parameter("cmd", Unsigned), Parameter("arg", Unsigned)]
    case Setuid => [Parameter("uid", Int)]
    case Setgid => [Parameter("gid", Int)]
    case Capset => [Parameter("hdr", Address), Parameter("data", Address)]
    case Prctl => [Parameter("option", Int), Parameter("arg2", Unsigned), Parameter("arg3", Unsigned),
                   Parameter("arg4", Unsigned), Parameter("arg5", Unsigned)]
    case Keyctl => [Parameter("cmd", Int), Parameter("arg2", Unsigned), Parameter("arg3", Unsigned),
                    Parameter("arg4", Unsigned), Parameter("arg5", Unsigned)]
  }

  /** The text a call passes as argument i, as far as it is printed. */
  function TextOf(call: Call, i: nat): string
    requires CallOk(call) && i < 6
  {
    CString(Probed(call.texts[i]))
  }

  /** What is printed of a text: its bytes up to the first NUL, or nothing if it could not be read. */
  lemma TextOfMemory(call: Call, i: nat)
    requires CallOk(call) && i < 6
    ensures TextOf(call, i) == match call.texts[i] case None => "" case Some(bytes) => CString(bytes)
  {
    if call.texts[i].None? { CStringIs(Zeros(MAX_BUF_SIZE), 0); }
  }

  /** User memory that holds s, then NULs. */
  function Memory(s: string): (r: Option<string>)
    requires |s| <= MAX_BUF_SIZE && NUL !in s
    ensures IsRead(r) && CString(Probed(r)) == s
  {
    var r := s + Zeros(MAX_BUF_SIZE - |s|);
    assert r[..|s|] == s;
    CStringIs(r, |s|);
    Some(r)
  }

  /** The same call with another text. */
  function WithText(call: Call, j: nat, text: string): (c: Call)
    requires CallOk(call) && j < 6 && NUL !in text && |text| <= MAX_BUF_SIZE
    ensures CallOk(c) && TextOf(c, j) == text && c.args == call.args
    ensures forall i | 0 <= i < 6 && i != j :: TextOf(c, i) == TextOf(call, i)
  {
    call.(texts := call.texts[j := Memory(text)])
  }

  /** Argument i of a call as text: the number itself, or the text it points to. */
  function ValueOf(notation: Notation, i: nat, call: Call): Val
    requires CallOk(call) && i < 6
  {
    match notation
    case Int => D(ToI32(call.args[i]))
    case Unsigned => Lu(call.args[i])
    case Hex => Lx(call.args[i])
    case Address => P(call.args[i])
    case Quoted => S(TextOf(call, i))
  }

  /** Field i shows argument i under the name of parameter i. */
  function ArgumentFields(ps: seq<Parameter>, call: Call): (fs: seq<Field>)
    requires CallOk(call) && |ps| <= 6
    ensures |fs| == |ps|
    ensures forall i | 0 <= i < |fs| :: fs[i] == Field(ps[i].name, ValueOf(ps[i].notation, i, call))
  {
    seq(|ps|, i requires 0 <= i < |ps| => Field(ps[i].name, ValueOf(ps[i].notation, i, call)))
  }

  /** The line a call should print. */
  function CallLine(s: Syscall, pid: I32, call: Call, microseconds: int): string
    requires CallOk(call)
  {
    Line(RecordPid(s, pid, call), Label(s), ArgumentFields(Parameters(s), call), microseconds)
  }

  /** The line of ptrace starts with the PID of the tracee, every other line with that of the caller. */
  lemma LineStartsWithPid(s: Syscall, pid: I32, call: Call, microseconds: int)
    requires CallOk(call)
    ensures "eptracer{pid=\"" + Dec(if s == Ptrace then ToI32(call.args[1]) else pid) + "\", syscall=\"" + Label(s) + "\""
         <= CallLine(s, pid, call, microseconds)
  {
    LineStart(RecordPid(s, pid, call), Label(s), ArgumentFields(Parameters(s), call), microseconds);
  }

  // ----- the consumer's formats agree with the signatures and with the producer's records

  /** The conversion of field i fits the parameter, and takes what the producer put in the place of argument i. */
  predicate Fits(spec: Spec, p: Parameter, place: Place, i: ArgIndex) {
    && spec.key == p.name
    && match p.notation
       case Int => spec.src == AsD(i) && place.Number?
       case Unsigned => spec.src == AsLu(i) && place.Number?
       case Hex => spec.src == AsLx(i) && place.Number?
       case Address => spec.src == AsP(i) && place.Number?
       case Quoted => spec.src.AsS? && place == Copied(spec.src.w)
  }

  predicate AllFit(specs: seq<Spec>, ps: seq<Parameter>, places: seq<Place>) {
    && |specs| == |ps| == |places| <= 6
    && forall i | 0 <= i < |specs| :: Fits(specs[i], ps[i], places[i], i)
  }

  lemma FormatsFollowSignatures(s: Syscall)
    requires s != Open
    ensures Name(KindOf(s)) == Label(s) && AllFit(Format(KindOf(s)), Parameters(s), Places(s))
  {
    LabelOfKind(s);
    match s
    case Mmap => MmapSignature(s);
    case Prctl | Keyctl => LongSignatures(s);
    case Ptrace | Clone => MiddleSignatures(s);
    case Openat | Mount => MixedSignatures(s);
    case Read | Write | Mprotect | Ioctl | Execve | Chown | Umount2 | Umount => ShortSignatures(s);
    case Fork | Setuid | Setgid | Capset => ShortestSignatures(s);
  }

  lemma LabelOfKind(s: Syscall)
    requires s != Open
    ensures Name(KindOf(s)) == Label(s)
  {
  }

  lemma LongSignatures(s: Syscall)
    requires s in {Prctl, Keyctl}
    ensures AllFit(Format(KindOf(s)), Parameters(s), Places(s))
  {
  }

  lemma MmapSignature(s: Syscall)
    requires s == Mmap
    ensures AllFit(Format(KindOf(s)), Parameters(s), Places(s))
  {
  }

  lemma MiddleSignatures(s: Syscall)
    requires s in {Ptrace, Clone}
    ensures AllFit(Format(KindOf(s)), Parameters(s), Places(s))
  {
  }

  lemma MixedSignatures(s: Syscall)
    requires s in {Openat, Mount}
    ensures AllFit(Format(KindOf(s)), Parameters(s), Places(s))
  {
  }

  lemma ShortSignatures(s: Syscall)
    requires s in {Read, Write, Mprotect, Ioctl, Execve, Chown, Umount2, Umount}
    ensures AllFit(Format(KindOf(s)), Parameters(s), Places(s))
  {
  }

  lemma ShortestSignatures(s: Syscall)
    requires s in {Fork, Setuid, Setgid, Capset}
    ensures AllFit(Format(KindOf(s)), Parameters(s), Places(s))
  {
  }

  // ----- the record a call leaves

  function Produced(s: Syscall, pid: I32, call: Call): (e: Event)
    requires s != Open && CallOk(call)
    ensures e.WellFormed()
  {
    FillsAreOk(s, pid, call);
    After(Fills(s, pid, call), |Fills(s, pid, call)|, call.stale)
  }

  /** What the consumer reads for field i of a complete record is argument i, terminated if it is a text. */
  lemma FieldShowsArgument(s: Syscall, pid: I32, call: Call, e: Event, spec: Spec, p: Parameter, i: ArgIndex)
    requires s != Open && CallOk(call) && Complete(s, pid, call, e)
    requires i < |Places(s)| && Fits(spec, p, Places(s)[i], i)
    ensures Fetch(spec.src, e) == ValueOf(p.notation, i, call)
    ensures spec.src.AsS? ==> e.Str(spec.src.w)[MAX_BUF_SIZE] == NUL
  {
    if p.notation.Quoted? {
      assert Places(s)[i].Copied?;
      TerminatorEndsString(Probed(call.texts[i]));
    } else {
      assert KeepsNumber(s, i);
    }
  }

  lemma FieldsShowArguments(s: Syscall, pid: I32, call: Call, e: Event, specs: seq<Spec>, ps: seq<Parameter>)
    requires s != Open && CallOk(call) && Complete(s, pid, call, e) && AllFit(specs, ps, Places(s))
    ensures FieldsOf(specs, e) == ArgumentFields(ps, call)
    ensures Ends(specs, e)
  {
    forall i | 0 <= i < |specs|
      ensures Fetch(specs[i].src, e) == ValueOf(ps[i].notation, i, call)
      ensures specs[i].src.AsS? ==> e.Str(specs[i].src.w)[MAX_BUF_SIZE] == NUL
    {
      FieldShowsArgument(s, pid, call, e, specs[i], ps[i], i);
    }
  }

  lemma {:induction false} TerminatorEndsString(s: string)
    ensures CString(s + [NUL]) == CString(s)
  {
    if s != [] && s[0] != NUL {
      assert (s + [NUL])[1..] == s[1..] + [NUL];
      TerminatorEndsString(s[1..]);
    }
  }

  /** A complete record renders as the call's own line: right label, caller and parameters, with the
      arguments in their places and the texts they point to. */
  lemma CompleteRecordIsTheCall(s: Syscall, pid: I32, call: Call, e: Event, t: int)
    requires s != Open && CallOk(call) && Complete(s, pid, call, e)
    ensures Terminated(e) && KnownKind(e.kind) && Fields(e) == ArgumentFields(Parameters(s), call)
    ensures Render(e, t) == CallLine(s, pid, call, t)
  {
    FormatsFollowSignatures(s);
    FieldsShowArguments(s, pid, call, e, Format(KindOf(s)), Parameters(s));
  }

  /** Whatever the reserved memory held before, the record that the writes of a case leave there
      renders as the line of the call. */
  lemma RenderedRecordIsTheCall(s: Syscall, pid: I32, call: Call, t: int)
    requires s != Open && CallOk(call)
    ensures Terminated(Produced(s, pid, call)) && KnownKind(Produced(s, pid, call).kind)
    ensures Produced(s, pid, call).kind == KindOf(s) && Produced(s, pid, call).pid == RecordPid(s, pid, call)
    ensures Fields(Produced(s, pid, call)) == ArgumentFields(Parameters(s), call)
    ensures Render(Produced(s, pid, call), t) == CallLine(s, pid, call, t)
  {
    FillsComplete(s, pid, call);
    CompleteRecordIsTheCall(s, pid, call, Produced(s, pid, call), t);
  }

  lemma SameAnswersSameFields(ps: seq<Parameter>, c: Call, d: Call)
    requires CallOk(c) && CallOk(d) && d == c.(stale := d.stale) && |ps| <= 6
    ensures ArgumentFields(ps, c) == ArgumentFields(ps, d)
  {
  }

  /** Two calls that differ only in the stale memory they were given print the same line. */
  lemma StaleMemoryIsInvisible(s: Syscall, pid: I32, call: Call, stale: Event, t: int)
    requires s != Open && CallOk(call) && stale.WellFormed()
    ensures Render(Produced(s, pid, call), t) == Render(Produced(s, pid, call.(stale := stale)), t)
  {
    var other := call.(stale := stale);
    RenderedRecordIsTheCall(s, pid, call, t);
    RenderedRecordIsTheCall(s, pid, other, t);
    SameAnswersSameFields(Parameters(s), call, other);
  }

  // ----- what a line tells about its call

  /** Two calls that one line shows as the same: label, printed PID and every argument. The lines of
      umount2 and umount are labelled alike. */
  predicate LooksAlike(s: Syscall, pid: I32, c: Call, s': Syscall, pid': I32, c': Call)
    requires CallOk(c) && CallOk(c')
  {
    && Label(s) == Label(s') && RecordPid(s, pid, c) == RecordPid(s', pid', c')
    && ArgumentFields(Parameters(s), c) == ArgumentFields(Parameters(s'), c')
  }

  lemma SameKindSameCase(s: Syscall, s': Syscall)
    requires s != Open && s' != Open && KindOf(s) == KindOf(s')
    ensures s == s' || {s, s'} == {Umount2, Umount}
    ensures Label(s) == Label(s')
  {
  }

  /** A line determines the case, the time, the PID and every argument of its call. */
  lemma LineDeterminesCall(s: Syscall, pid: I32, c: Call, t: int, s': Syscall, pid': I32, c': Call, t': int)
    requires s != Open && s' != Open && s != Mount && CallOk(c) && CallOk(c')
    requires CallLine(s, pid, c, t) == CallLine(s', pid', c', t')
    ensures t == t' && LooksAlike(s, pid, c, s', pid', c')
    ensures s == s' || {s, s'} == {Umount2, Umount}
  {
    RenderedRecordIsTheCall(s, pid, c, t);
    RenderedRecordIsTheCall(s', pid', c', t');
    LineDeterminesEvent(Produced(s, pid, c), t, Produced(s', pid', c'), t');
    SameKindSameCase(s, s');
  }

  predicate SingleTexts(ps: seq<Parameter>, call: Call)
    requires CallOk(call) && |ps| <= 6
  {
    forall i | 0 <= i < |ps| && ps[i].notation.Quoted? :: '\n' !in TextOf(call, i)
  }

  /** None of the texts a call passes holds a newline before it ends. */
  predicate SingleLine(s: Syscall, call: Call)
    requires CallOk(call)
  {
    SingleTexts(Parameters(s), call)
  }

  lemma NewlinesAreInTexts(ps: seq<Parameter>, call: Call)
    requires CallOk(call) && |ps| <= 6
    ensures InString('\n', ArgumentFields(ps, call)) <==> !SingleTexts(ps, call)
  {
    var fs := ArgumentFields(ps, call);
    forall i | 0 <= i < |ps|
      ensures fs[i].val.S? <==> ps[i].notation.Quoted?
      ensures fs[i].val.S? ==> fs[i].val.s == TextOf(call, i)
    {
    }
  }

  lemma NamesAreWords(specs: seq<Spec>, ps: seq<Parameter>, places: seq<Place>)
    requires AllFit(specs, ps, places)
    ensures forall i | 0 <= i < |ps| :: '\n' !in ps[i].name
  {
    assert forall i | 0 <= i < |ps| :: Fits(specs[i], ps[i], places[i], i);
  }

  lemma LineIsSingle(s: Syscall, pid: I32, call: Call, t: int)
    requires s != Open && CallOk(call)
    ensures '\n' !in CallLine(s, pid, call, t) <==> SingleLine(s, call)
  {
    FormatsFollowSignatures(s);
    NamesAreWords(Format(KindOf(s)), Parameters(s), Places(s));
    NewlinesAreInTexts(Parameters(s), call);
    ControlOfLine('\n', RecordPid(s, pid, call), Label(s), ArgumentFields(Parameters(s), call), t);
  }
}
