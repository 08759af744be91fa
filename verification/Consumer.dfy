/** The user side of system-call tracing: `syscall_event_handler` of src/tracers/syscall.c. */
module Consumer {
  import opened CTypes
  import opened Numerals
  import opened SyscallEvents
  import opened MetricLine

  const METRIC_SIZE := 1024
  const MAX_FIELDS := 6

  predicate KnownKind(kind: int) {
    EVENT_PTRACE <= kind <= EVENT_KEYCTL
  }

  type Word = s: string | NUL !in s && '\n' !in s && '%' !in s && |s| <= MAX_KEY witness ""

  /** The label printed for an event type. */
  function Name(kind: int): Word {
    match kind
    case EVENT_PTRACE => "ptrace"
    case EVENT_READ => "read"
    case EVENT_EXECVE => "execve"
    case EVENT_FORK => "fork"
    case EVENT_CLONE => "clone"
    case EVENT_MPROTECT => "mprotect"
    case EVENT_OPENAT => "openat"
    case EVENT_MMAP => "mmap"
    case EVENT_WRITE => "write"
    case EVENT_CHOWN => "chown"
    case EVENT_MOUNT => "mount"
    case EVENT_UMOUNT => "umount"
    case EVENT_IOCTL => "binder_ioctl"
    case EVENT_SETUID => "setuid"
    case EVENT_SETGID => "setgid"
    case EVENT_CAPSET => "capset"
    case EVENT_PRCTL => "prctl"
    case EVENT_KEYCTL => "keyctl"
    case _ => "unknown"
  }

  lemma NameHasNoQuote(kind: int)
    ensures '"' !in Name(kind)
  {
  }

  /** A conversion together with the record field passed to it: an argument cast to int, to unsigned
      long, printed in hexadecimal or as a pointer, or one of the strings. */
  datatype Source = AsD(i: ArgIndex) | AsLu(i: ArgIndex) | AsLx(i: ArgIndex) | AsP(i: ArgIndex) | AsS(w: Which)

  type ArgIndex = i: nat | i < 6

  datatype Spec = Spec(key: Word, src: Source)

  /** What each snprintf call prints after pid and syscall. */
  function Format(kind: int): seq<Spec> {
    match kind
    case EVENT_PTRACE => [Spec("request", AsD(0)), Spec("pid", AsD(1)), Spec("addr", AsP(2)), Spec("data", AsP(3))]
    case EVENT_READ => [Spec("fd", AsD(0)), Spec("buf", AsP(1)), Spec("count", AsLu(2))]
    case EVENT_EXECVE => [Spec("filename", AsS(Str1)), Spec("argv", AsP(1)), Spec("envp", AsP(2))]
    case EVENT_CLONE => [Spec("flags", AsLx(0)), Spec("child_stack", AsP(1)), Spec("parent_tid", AsP(2)), Spec("child_tid", AsP(3))]
    case EVENT_MPROTECT => [Spec("addr", AsP(0)), Spec("len", AsLu(1)), Spec("prot", AsD(2))]
    case EVENT_OPENAT => [Spec("fd", AsD(0)), Spec("filename", AsS(Str1)), Spec("flags", AsD(2)), Spec("mode", AsD(3))]
    case EVENT_MMAP => [Spec("addr", AsP(0)), Spec("length", AsLu(1)), Spec("prot", AsD(2)),
                        Spec("flags", AsD(3)), Spec("fd", AsD(4)), Spec("off", AsLu(5))]
    case EVENT_WRITE => [Spec("fd", AsD(0)), Spec("buf", AsP(1)), Spec("count", AsLu(2))]
    case EVENT_CHOWN => [Spec("filename", AsS(Str1)), Spec("uid", AsD(1)), Spec("gid", AsD(2))]
    case EVENT_MOUNT => [Spec("source", AsS(Str1)), Spec("target", AsS(Str2)), Spec("fstype", AsS(Str3)),
                         Spec("flags", AsLx(3)), Spec("data", AsP(4))]
    case EVENT_UMOUNT => [Spec("target", AsS(Str1)), Spec("flags", AsD(1))]
    case EVENT_IOCTL => [Spec("fd", AsD(0)), Spec("cmd", AsLu(1)), Spec("arg", AsLu(2))]
    case EVENT_SETUID => [Spec("uid", AsD(0))]
    case EVENT_SETGID => [Spec("gid", AsD(0))]
    case EVENT_CAPSET => [Spec("hdr", AsP(0)), Spec("data", AsP(1))]
    case EVENT_PRCTL => [Spec("option", AsD(0)), Spec("arg2", AsLu(1)), Spec("arg3", AsLu(2)), Spec("arg4", AsLu(3)), Spec("arg5", AsLu(4))]
    case EVENT_KEYCTL => [Spec("cmd", AsD(0)), Spec("arg2", AsLu(1)), Spec("arg3", AsLu(2)), Spec("arg4", AsLu(3)), Spec("arg5", AsLu(4))]
    case _ => []
  }

  function Fetch(src: Source, e: Event): Val
    requires e.WellFormed()
  {
    match src
    case AsD(i) => D(ToI32(e.args[i]))
    case AsLu(i) => Lu(e.args[i])
    case AsLx(i) => Lx(e.args[i])
    case AsP(i) => P(e.args[i])
    case AsS(w) => S(CString(e.Str(w)))
  }

  predicate OneStringSpec(specs: seq<Spec>) {
    forall i, j | 0 <= i < j < |specs| :: !(specs[i].src.AsS? && specs[j].src.AsS?)
  }

  lemma FormatIsShort(kind: int)
    ensures |Format(kind)| <= MAX_FIELDS
  {
  }

  lemma FormatHasOneString(kind: int)
    requires kind != EVENT_MOUNT
    ensures OneStringSpec(Format(kind))
  {
  }

  function FieldsOf(specs: seq<Spec>, e: Event): (fs: seq<Field>)
    requires e.WellFormed()
    ensures |fs| == |specs|
    ensures forall i | 0 <= i < |fs| :: fs[i] == Field(specs[i].key, Fetch(specs[i].src, e))
  {
    seq(|specs|, i requires 0 <= i < |specs| => Field(specs[i].key, Fetch(specs[i].src, e)))
  }

  /** The fields printed for an event. */
  function Fields(e: Event): seq<Field>
    requires e.WellFormed()
  {
    FieldsOf(Format(e.kind), e)
  }

  function Render(e: Event, microseconds: int): string
    requires e.WellFormed()
  {
    Line(e.pid, Name(e.kind), Fields(e), microseconds)
  }

  /** What one handler call prints: the metric as its buffer holds it, and a newline. A string in it may
      hold newlines of its own. */
  function HandlerOutput(e: Event, microseconds: int): string
    requires e.WellFormed()
  {
    Snprintf(METRIC_SIZE, Render(e, microseconds)) + "\n"
  }

  // ----- the buffer is large enough

  predicate Ends(specs: seq<Spec>, e: Event)
    requires e.WellFormed()
  {
    forall i | 0 <= i < |specs| && specs[i].src.AsS? :: e.Str(specs[i].src.w)[MAX_BUF_SIZE] == NUL
  }

  /** Each string printed has its terminator inside its buffer, so `%s` stays inside the record. */
  predicate Terminated(e: Event)
    requires e.WellFormed()
  {
    Ends(Format(e.kind), e)
  }

  lemma TerminatedLength(s: string)
    requires |s| == STR_SIZE && s[MAX_BUF_SIZE] == NUL
    ensures |CString(s)| <= MAX_BUF_SIZE
  {
    assert s[..STR_SIZE][MAX_BUF_SIZE] == NUL;
  }

  lemma FieldsOfLength(specs: seq<Spec>, e: Event)
    requires e.WellFormed() && |specs| <= MAX_FIELDS && Ends(specs, e)
    ensures |FieldsText(FieldsOf(specs, e))| <= MAX_FIELDS * (MAX_KEY + 5 + 128)
  {
    var fs := FieldsOf(specs, e);
    forall i | 0 <= i < |fs|
      ensures |fs[i].key| <= MAX_KEY && (fs[i].val.S? ==> |fs[i].val.s| <= MAX_BUF_SIZE)
    {
      if specs[i].src.AsS? { TerminatedLength(e.Str(specs[i].src.w)); }
    }
    FieldsTextLength(fs);
  }

  /** No metric is ever cut short by the 1024-byte buffer. */
  lemma RenderingNeverTruncates(e: Event, microseconds: I64)
    requires e.WellFormed() && Terminated(e)
    ensures |Render(e, microseconds)| < METRIC_SIZE
  {
    FormatIsShort(e.kind);
    FieldsOfLength(Format(e.kind), e);
    LineLength(e.pid, Name(e.kind), Fields(e), microseconds);
  }

  lemma LineLength(pid: I32, name: string, fs: seq<Field>, microseconds: I64)
    requires |name| <= 12 && |FieldsText(fs)| <= MAX_FIELDS * (MAX_KEY + 5 + 128)
    ensures |Line(pid, name, fs, microseconds)| < METRIC_SIZE
  {
    Widths(pid, microseconds, 0);
  }

  // ----- what a line tells

  lemma NamesAreDistinct(k: int, l: int)
    requires KnownKind(k) && KnownKind(l) && Name(k) == Name(l)
    ensures k == l
  {
    assert Name(k)[0] == Name(l)[0] && |Name(k)| == |Name(l)| && Name(k)[3] == Name(l)[3];
  }

  lemma FieldsOfFormat(specs: seq<Spec>, e: Event, f: Event)
    requires e.WellFormed() && f.WellFormed()
    ensures SameFormat(FieldsOf(specs, e), FieldsOf(specs, f))
    ensures OneStringSpec(specs) ==> OneString(FieldsOf(specs, e))
  {
    var fs := FieldsOf(specs, e);
    forall i, j | 0 <= i < j < |fs| && OneStringSpec(specs)
      ensures !(fs[i].val.S? && fs[j].val.S?)
    {
      assert !(specs[i].src.AsS? && specs[j].src.AsS?);
    }
  }

  /** Equal metrics have equal type, time and pid; only the fields' text remains to be read. */
  lemma SameLine(e: Event, t: int, f: Event, u: int)
    requires e.WellFormed() && f.WellFormed() && KnownKind(e.kind) && KnownKind(f.kind)
    requires Render(e, t) == Render(f, u)
    ensures e.kind == f.kind && t == u && e.pid == f.pid && FieldsText(Fields(e)) == FieldsText(Fields(f))
  {
    NameHasNoQuote(e.kind);
    NameHasNoQuote(f.kind);
    ReadLine(e.pid, Name(e.kind), Fields(e), t, f.pid, Name(f.kind), Fields(f), u);
    NamesAreDistinct(e.kind, f.kind);
  }

  /** A metric determines its event: type, time, pid and every printed argument, even though the one
      string of execve, openat, chown and umount is printed unescaped and may contain quotes. */
  lemma LineDeterminesEvent(e: Event, t: int, f: Event, u: int)
    requires e.WellFormed() && f.WellFormed() && KnownKind(e.kind) && KnownKind(f.kind) && e.kind != EVENT_MOUNT
    requires Render(e, t) == Render(f, u)
    ensures e.kind == f.kind && t == u && e.pid == f.pid && Fields(e) == Fields(f)
  {
    SameLine(e, t, f, u);
    FormatHasOneString(e.kind);
    FieldsOfFormat(Format(e.kind), e, f);
    ReadFields(Fields(e), Fields(f));
  }

  // ----- the handler

  /** Microseconds since the epoch, in signed 64-bit arithmetic; / truncates in C. */
  function Microseconds(sec: I64, nsec: int): int
    requires 0 <= nsec < 1_000_000_000
  {
    sec * 1_000_000 + nsec / 1000
  }

  /** Nothing but the nanoseconds within a microsecond is lost. */
  lemma MicrosecondsKeepTheTime(sec: I64, nsec: int)
    requires 0 <= nsec < 1_000_000_000
    ensures Microseconds(sec, nsec) / 1_000_000 == sec
    ensures Microseconds(sec, nsec) % 1_000_000 == nsec / 1000
  {
  }

  /** snprintf into a buffer: the text as far as it fits, and a NUL. */
  method SnprintfInto(buf: array<char>, text: string)
    requires 0 < buf.Length && NUL !in text
    modifies buf
    ensures CString(buf[..]) == Snprintf(buf.Length, text)
  {
    var kept := Snprintf(buf.Length, text);
    forall i | 0 <= i < |kept| { buf[i] := kept[i]; }
    buf[|kept|] := NUL;
    assert buf[..][..|kept|] == kept;
    CStringIs(buf[..], |kept|);
  }

  lemma RenderHasNoNul(e: Event, t: int)
    requires e.WellFormed()
    ensures NUL !in Render(e, t)
  {
    ControlOfLine(NUL, e.pid, Name(e.kind), Fields(e), t);
  }

  /** Renders a record into its 1024-byte buffer and prints it, with a newline behind it. */
  method SyscallEventHandler(ev: EventRecord, sec: I64, nsec: int) returns (printed: string)
    requires ev.Valid() && Terminated(ev.Value())
    requires 0 <= nsec < 1_000_000_000
    requires -0x8000_0000_0000_0000 <= Microseconds(sec, nsec) < 0x8000_0000_0000_0000
    ensures printed == HandlerOutput(ev.Value(), Microseconds(sec, nsec))
    ensures printed == Render(ev.Value(), Microseconds(sec, nsec)) + "\n"
  {
    var microseconds := sec * 1_000_000 + nsec / 1000;
    var metric := new char[METRIC_SIZE];
    var e := Event(ev.kind, ev.pid, ev.args[..], ev.str1[..], ev.str2[..], ev.str3[..]);
    RenderHasNoNul(e, microseconds);
    RenderingNeverTruncates(e, microseconds);
    SnprintfInto(metric, Render(e, microseconds));
    printed := CString(metric[..]) + "\n";
  }
}
