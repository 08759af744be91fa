/** A printed text may hold newlines, and then the line of one call can read as the lines of two. */
module LineBreaks {
  import opened CTypes
  import opened Numerals
  import opened SyscallEvents
  import opened Producer
  import opened MetricLine
  import opened SyscallLine

  /** Argument j of the call is printed as the text it points to. */
  predicate IsText(s: Syscall, j: nat) {
    j < |Parameters(s)| && Parameters(s)[j].notation.Quoted?
  }

  /** What stands before and behind the value of field j in a line, the newline included. */
  function Lead(pid: I32, name: string, fs: seq<Field>, j: nat): string
    requires j < |fs|
  {
    Head(pid, name) + FieldsText(fs[..j]) + Opening(fs[j])
  }

  function Trail(fs: seq<Field>, t: int, j: nat): string
    requires j < |fs|
  {
    "\"" + FieldsText(fs[j + 1..]) + "} " + Dec(t) + "\n"
  }

  function Before(s: Syscall, pid: I32, call: Call, j: nat): string
    requires CallOk(call) && IsText(s, j)
  {
    Lead(RecordPid(s, pid, call), Label(s), ArgumentFields(Parameters(s), call), j)
  }

  function Behind(s: Syscall, call: Call, t: int, j: nat): string
    requires CallOk(call) && IsText(s, j)
  {
    Trail(ArgumentFields(Parameters(s), call), t, j)
  }

  lemma {:induction false} FieldsTextAround(fs: seq<Field>, j: nat)
    requires j < |fs|
    ensures FieldsText(fs) == FieldsText(fs[..j]) + (FieldText(fs[j]) + FieldsText(fs[j + 1..]))
    decreases j
  {
    if j > 0 {
      FieldsTextAround(fs[1..], j - 1);
      assert fs[1..][..j - 1] == fs[..j][1..] && fs[1..][j..] == fs[j + 1..];
      Associate(FieldText(fs[0]), FieldsText(fs[..j][1..]), FieldText(fs[j]) + FieldsText(fs[j + 1..]));
    }
  }

  lemma Regroup(h: string, a: string, o: string, s: string, b: string, e: string, d: string)
    ensures (h + (a + (((o + s) + "\"") + b)) + e + d) + "\n" == (h + a + o) + s + ("\"" + b + e + d + "\n")
  {
  }

  lemma LineAroundField(pid: I32, name: string, fs: seq<Field>, t: int, j: nat)
    requires j < |fs|
    ensures Line(pid, name, fs, t) + "\n" == Lead(pid, name, fs, j) + Text(fs[j].val) + Trail(fs, t, j)
  {
    FieldsTextAround(fs, j);
    Regroup(Head(pid, name), FieldsText(fs[..j]), Opening(fs[j]), Text(fs[j].val), FieldsText(fs[j + 1..]), "} ", Dec(t));
  }

  lemma LineAroundText(s: Syscall, pid: I32, call: Call, t: int, j: nat)
    requires CallOk(call) && IsText(s, j)
    ensures CallLine(s, pid, call, t) + "\n" == Before(s, pid, call, j) + TextOf(call, j) + Behind(s, call, t, j)
  {
    var fs := ArgumentFields(Parameters(s), call);
    assert fs[j].val == S(TextOf(call, j));
    LineAroundField(RecordPid(s, pid, call), Label(s), fs, t, j);
  }

  lemma OtherFieldsStay(ps: seq<Parameter>, call: Call, j: nat, text: string)
    requires CallOk(call) && j < |ps| <= 6 && NUL !in text && |text| <= MAX_BUF_SIZE
    ensures var fs, gs := ArgumentFields(ps, call), ArgumentFields(ps, WithText(call, j, text));
            fs[..j] == gs[..j] && fs[j].key == gs[j].key && fs[j + 1..] == gs[j + 1..]
  {
    var c := WithText(call, j, text);
    forall i | 0 <= i < |ps| && i != j
      ensures ValueOf(ps[i].notation, i, call) == ValueOf(ps[i].notation, i, c)
    {
    }
  }

  lemma LineWithText(s: Syscall, pid: I32, call: Call, t: int, j: nat, text: string)
    requires CallOk(call) && IsText(s, j) && NUL !in text && |text| <= MAX_BUF_SIZE
    ensures CallLine(s, pid, WithText(call, j, text), t) + "\n" == Before(s, pid, call, j) + text + Behind(s, call, t, j)
  {
    LineAroundText(s, pid, WithText(call, j, text), t, j);
    OtherFieldsStay(Parameters(s), call, j, text);
  }

  /** A text that closes its own line and opens another. */
  function BreakingText(s: Syscall, pid: I32, call: Call, t: int, j: nat, x: string, y: string): string
    requires CallOk(call) && IsText(s, j)
  {
    x + Behind(s, call, t, j) + Before(s, pid, call, j) + y
  }

  lemma Interleave(b: string, x: string, e: string, y: string)
    ensures b + (x + e + b + y) + e == (b + x + e) + (b + y + e)
  {
  }

  /** The property fails with newlines: whatever the call, its text argument j and the strings x and y,
      one call that passes the combined text prints what two calls that pass x and y print. */
  lemma OneCallPrintsTwoLines(s: Syscall, pid: I32, call: Call, t: int, j: nat, x: string, y: string)
    requires CallOk(call) && IsText(s, j)
    requires var f := BreakingText(s, pid, call, t, j, x, y); NUL !in f && |f| <= MAX_BUF_SIZE
    ensures NUL !in x && |x| <= MAX_BUF_SIZE && NUL !in y && |y| <= MAX_BUF_SIZE
    ensures CallLine(s, pid, WithText(call, j, BreakingText(s, pid, call, t, j, x, y)), t) + "\n" ==
            (CallLine(s, pid, WithText(call, j, x), t) + "\n") + (CallLine(s, pid, WithText(call, j, y), t) + "\n")
  {
    assert forall c | c in x || c in y :: c in BreakingText(s, pid, call, t, j, x, y);
    LineWithText(s, pid, call, t, j, BreakingText(s, pid, call, t, j, x, y));
    LineWithText(s, pid, call, t, j, x);
    LineWithText(s, pid, call, t, j, y);
    Interleave(Before(s, pid, call, j), x, Behind(s, call, t, j), y);
  }

  lemma TwoFields(f: Field, g: Field)
    ensures FieldsText([f, g]) == FieldText(f) + FieldText(g)
  {
    var fs := [f, g];
    assert fs[1..] == [g];
    assert FieldsText([g]) == FieldText(g) + FieldsText([g][1..]);
  }

  lemma NullPointer(key: string)
    ensures FieldText(Field(key, P(0))) == ", " + key + "=\"(nil)\""
  {
  }

  lemma BehindExecve(call: Call, t: int)
    requires CallOk(call) && call.args[1] == 0 && call.args[2] == 0
    ensures Behind(Execve, call, t, 0) == "\"" + (", argv=\"(nil)\"" + ", envp=\"(nil)\"") + "} " + Dec(t) + "\n"
  {
    var fs := ArgumentFields(Parameters(Execve), call);
    assert fs[1..] == [Field("argv", P(0)), Field("envp", P(0))];
    TwoFields(fs[1], fs[2]);
    NullPointer("argv");
    NullPointer("envp");
    assert ", " + "argv" + "=\"(nil)\"" == ", argv=\"(nil)\"" && ", " + "envp" + "=\"(nil)\"" == ", envp=\"(nil)\"";
  }

  lemma OpeningOfPath(f: Field)
    requires f.key == "filename"
    ensures Opening(f) == ", filename=\""
  {
  }

  lemma BeforeExecve(pid: I32, call: Call)
    requires CallOk(call)
    ensures Before(Execve, pid, call, 0) == Head(pid, "execve") + ", filename=\""
  {
    var fs := ArgumentFields(Parameters(Execve), call);
    assert fs[..0] == [];
    OpeningOfPath(fs[0]);
  }

  lemma SizeBefore(pid: I32)
    ensures var b := Head(pid, "execve") + ", filename=\""; |b| == 45 + |Dec(pid)| && NUL !in b
  {
    DecPlain(pid);
    assert NUL !in Head(pid, "execve");
  }

  lemma SizeBehind(t: int)
    ensures var e := "\"" + (", argv=\"(nil)\"" + ", envp=\"(nil)\"") + "} " + Dec(t) + "\n";
            |e| == 32 + |Dec(t)| && NUL !in e
  {
    DecPlain(t);
  }

  /** Such texts fit the 128 bytes that are copied: for an execve without arguments by a process whose
      PID has four digits, at a time of sixteen, they take 97 bytes besides x and y. */
  lemma BreakingTextFits(pid: I32, call: Call, t: int, x: string, y: string)
    requires CallOk(call) && call.args[1] == 0 && call.args[2] == 0 && NUL !in x && NUL !in y
    ensures var f := BreakingText(Execve, pid, call, t, 0, x, y);
            NUL !in f && |f| == 77 + |Dec(pid)| + |Dec(t)| + |x| + |y|
  {
    BehindExecve(call, t);
    BeforeExecve(pid, call);
    SizeBehind(t);
    SizeBefore(pid);
  }
}
