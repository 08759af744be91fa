/** The cases of `sys_enter_multiplexer` as lists of writes, the form in which RingProtocol interleaves
    them, and why they leave the record that Producer asks for. */
module CaseWrites {
  import opened CTypes
  import opened SyscallEvents
  import opened Producer

  /** One write to the record. */
  datatype Fill =
    | SetKind(kind: int)
    | SetPid(pid: I32)
    | SetArg(i: nat, v: U64)
    | ReadStr(w: Which, data: Option<string>, mandatory: bool)
    | EndStr(w: Which)

  predicate FillOk(f: Fill) {
    (f.SetArg? ==> f.i < 6) && (f.ReadStr? ==> IsRead(f.data))
  }

  function Apply(f: Fill, e: Event): (r: Event)
    requires FillOk(f) && e.WellFormed()
    ensures r.WellFormed()
  {
    match f
    case SetKind(k) => e.(kind := k)
    case SetPid(p) => e.(pid := p)
    case SetArg(i, v) => e.(args := e.args[i := v])
    case ReadStr(w, data, _) => e.WithStr(w, Probed(data) + [e.Str(w)[MAX_BUF_SIZE]])
    case EndStr(w) => e.WithStr(w, e.Str(w)[MAX_BUF_SIZE := NUL])
  }

  predicate FillsOk(fills: seq<Fill>) {
    forall i | 0 <= i < |fills| :: FillOk(fills[i])
  }

  /** The record after the first n writes. */
  function After(fills: seq<Fill>, n: nat, stale: Event): (r: Event)
    requires FillsOk(fills) && n <= |fills| && stale.WellFormed()
    ensures r.WellFormed()
    decreases n
  {
    if n == 0 then stale else Apply(fills[n - 1], After(fills, n - 1, stale))
  }

  /** A mandatory read that failed: the record is discarded there. */
  predicate Aborts(f: Fill) {
    f.ReadStr? && f.mandatory && f.data.None?
  }

  /** What each case writes, in the order of its statements. */
  function Fills(s: Syscall, pid: I32, call: Call): seq<Fill>
    requires s != Open && CallOk(call)
  {
    var a, t := call.args, call.texts;
    var kind, pid := SetKind(KindOf(s)), SetPid(pid);
    match s
    case Ptrace =>
      [kind, SetPid(ToI32(a[1])), SetArg(0, a[0]), SetArg(1, a[1]), SetArg(2, a[2]), SetArg(3, a[3])]
    case Execve =>
      [kind, pid, SetArg(1, a[1]), SetArg(2, a[2]), ReadStr(Str1, t[0], true), EndStr(Str1)]
    case Fork =>
      [kind, pid]
    case Clone =>
      [kind, pid, SetArg(0, a[0]), SetArg(1, a[1]), SetArg(2, a[2]), SetArg(3, a[3])]
    case Openat =>
      [ReadStr(Str1, t[1], true), EndStr(Str1), kind, pid, SetArg(0, a[0]), SetArg(2, a[2]), SetArg(3, a[3])]
    case Mmap =>
      [kind, pid, SetArg(0, a[0]), SetArg(1, a[1]), SetArg(2, a[2]), SetArg(3, a[3]), SetArg(4, a[4]), SetArg(5, a[5])]
    case Chown =>
      [ReadStr(Str1, t[0], true), EndStr(Str1), kind, pid, SetArg(1, a[1]), SetArg(2, a[2])]
    case Mount =>
      [ReadStr(Str1, t[0], false), ReadStr(Str2, t[1], false), ReadStr(Str3, t[2], false),
       EndStr(Str3), EndStr(Str2), EndStr(Str1), kind, pid, SetArg(3, a[3]), SetArg(4, a[4])]
    case Umount2 | Umount =>
      [ReadStr(Str1, t[0], true), EndStr(Str1), kind, pid, SetArg(1, a[1])]
    case Setuid | Setgid =>
      [kind, pid, SetArg(0, a[0])]
    case Capset =>
      [kind, pid, SetArg(0, a[0]), SetArg(1, a[1])]
    case Prctl | Keyctl =>
      [kind, pid, SetArg(0, a[0]), SetArg(1, a[1]), SetArg(2, a[2]), SetArg(3, a[3]), SetArg(4, a[4])]
    case Read | Mprotect | Write | Ioctl =>
      [kind, pid, SetArg(0, a[0]), SetArg(1, a[1]), SetArg(2, a[2])]
  }

  lemma FillsAreOk(s: Syscall, pid: I32, call: Call)
    requires s != Open && CallOk(call)
    ensures FillsOk(Fills(s, pid, call))
  {
  }

  /** A record is given up exactly at the failed read of its path. */
  lemma AbortsExactlyOnUnreadablePath(s: Syscall, pid: I32, call: Call)
    requires s != Open && CallOk(call)
    ensures var fills := Fills(s, pid, call);
            PathReadable(s, call) <==> forall i | 0 <= i < |fills| :: !Aborts(fills[i])
  {
    var fills := Fills(s, pid, call);
    if !PathReadable(s, call) {
      assert Aborts(fills[if s == Execve then 4 else 0]);
    }
  }

  // ----- where the writes lead

  /** What f writes is there. */
  predicate Shows(e: Event, f: Fill)
    requires e.WellFormed() && FillOk(f)
  {
    match f
    case SetKind(k) => e.kind == k
    case SetPid(p) => e.pid == p
    case SetArg(i, v) => e.args[i] == v
    case ReadStr(w, data, _) => e.Str(w)[..MAX_BUF_SIZE] == Probed(data)
    case EndStr(w) => e.Str(w)[MAX_BUF_SIZE] == NUL
  }

  /** Not two different values for one place of the record. */
  predicate Agree(f: Fill, g: Fill) {
    && (f.SetKind? && g.SetKind? ==> f.kind == g.kind)
    && (f.SetPid? && g.SetPid? ==> f.pid == g.pid)
    && (f.SetArg? && g.SetArg? && f.i == g.i ==> f.v == g.v)
    && (f.ReadStr? && g.ReadStr? && f.w == g.w ==> f.data == g.data)
  }

  lemma ApplyShows(f: Fill, e: Event)
    requires e.WellFormed() && FillOk(f)
    ensures Shows(Apply(f, e), f)
  {
  }

  /** What is there stays, as long as no later write disagrees. */
  lemma {:induction false} ShownLasts(fills: seq<Fill>, j: nat, n: nat, stale: Event, f: Fill)
    requires FillsOk(fills) && j <= n <= |fills| && stale.WellFormed() && FillOk(f)
    requires Shows(After(fills, j, stale), f) && forall k | j <= k < n :: Agree(f, fills[k])
    ensures Shows(After(fills, n, stale), f)
    decreases n
  {
    if j < n { ShownLasts(fills, j, n - 1, stale, f); }
  }

  lemma ShownAfterWriting(fills: seq<Fill>, j: nat, stale: Event)
    requires FillsOk(fills) && stale.WellFormed() && j < |fills|
    ensures Shows(After(fills, j + 1, stale), fills[j])
  {
    ApplyShows(fills[j], After(fills, j, stale));
  }

  lemma LastWriteIsShown(fills: seq<Fill>, stale: Event, j: nat)
    requires FillsOk(fills) && stale.WellFormed() && j < |fills|
    requires forall k | j < k < |fills| :: Agree(fills[j], fills[k])
    ensures Shows(After(fills, |fills|, stale), fills[j])
  {
    ShownAfterWriting(fills, j, stale);
    ShownLasts(fills, j + 1, |fills|, stale, fills[j]);
  }

  lemma WrittenIsShown(fills: seq<Fill>, stale: Event, f: Fill)
    requires FillsOk(fills) && stale.WellFormed() && f in fills && forall g | g in fills :: Agree(f, g)
    ensures FillOk(f) && Shows(After(fills, |fills|, stale), f)
  {
    var j :| 0 <= j < |fills| && fills[j] == f;
    LastWriteIsShown(fills, stale, j);
  }

  lemma {:induction false} UnwrittenTextStays(fills: seq<Fill>, n: nat, stale: Event, w: Which)
    requires FillsOk(fills) && n <= |fills| && stale.WellFormed()
    requires forall k | 0 <= k < n :: (fills[k].ReadStr? || fills[k].EndStr?) ==> fills[k].w != w
    ensures After(fills, n, stale).Str(w) == stale.Str(w)
    decreases n
  {
    if n > 0 { UnwrittenTextStays(fills, n - 1, stale, w); }
  }

  /** f writes something the record of the call should hold. */
  predicate BelongsTo(f: Fill, s: Syscall, pid: I32, call: Call)
    requires s != Open && CallOk(call)
  {
    match f
    case SetKind(k) => k == KindOf(s)
    case SetPid(p) => p == RecordPid(s, pid, call)
    case SetArg(i, v) => KeepsNumber(s, i) && v == call.args[i]
    case ReadStr(w, data, _) =>
      Copied(w) in Places(s) && forall i | 0 <= i < |Places(s)| && Places(s)[i] == Copied(w) :: data == call.texts[i]
    case EndStr(w) => Copied(w) in Places(s)
  }

  lemma NothingElseIsWritten(s: Syscall, pid: I32, call: Call, f: Fill)
    requires s != Open && CallOk(call) && f in Fills(s, pid, call)
    ensures BelongsTo(f, s, pid, call)
  {
    if f.ReadStr? || f.EndStr? {
      NoOtherText(s, pid, call, f);
    } else {
      NoOtherNumber(s, pid, call, f);
    }
  }

  lemma NoOtherText(s: Syscall, pid: I32, call: Call, f: Fill)
    requires s != Open && CallOk(call) && f in Fills(s, pid, call) && (f.ReadStr? || f.EndStr?)
    ensures BelongsTo(f, s, pid, call)
  {
  }

  lemma NoOtherNumber(s: Syscall, pid: I32, call: Call, f: Fill)
    requires s != Open && CallOk(call) && f in Fills(s, pid, call) && !f.ReadStr? && !f.EndStr?
    ensures BelongsTo(f, s, pid, call)
  {
  }

  lemma EverythingIsWritten(s: Syscall, pid: I32, call: Call, i: nat)
    requires s != Open && CallOk(call)
    ensures SetKind(KindOf(s)) in Fills(s, pid, call) && SetPid(RecordPid(s, pid, call)) in Fills(s, pid, call)
    ensures i < |Places(s)| ==>
              match Places(s)[i]
              case Number => SetArg(i, call.args[i]) in Fills(s, pid, call)
              case Copied(w) =>
                ReadStr(w, call.texts[i], !s.Mount?) in Fills(s, pid, call) && EndStr(w) in Fills(s, pid, call)
  {
  }

  lemma NumbersOfFills(s: Syscall, pid: I32, call: Call, e: Event, i: nat)
    requires s != Open && CallOk(call) && i < 6
    requires FillsOk(Fills(s, pid, call)) && e == After(Fills(s, pid, call), |Fills(s, pid, call)|, call.stale)
    ensures e.args[i] == if KeepsNumber(s, i) then call.args[i] else call.stale.args[i]
  {
    var fills, f := Fills(s, pid, call), SetArg(i, if KeepsNumber(s, i) then call.args[i] else call.stale.args[i]);
    forall g | g in fills
      ensures Agree(f, g)
    {
      NothingElseIsWritten(s, pid, call, g);
    }
    if KeepsNumber(s, i) {
      EverythingIsWritten(s, pid, call, i);
      WrittenIsShown(fills, call.stale, f);
    } else {
      assert forall k | 0 <= k < |fills| :: fills[k] in fills;
      ShownLasts(fills, 0, |fills|, call.stale, f);
    }
  }

  lemma TextOfFills(s: Syscall, pid: I32, call: Call, e: Event, i: nat)
    requires s != Open && CallOk(call) && i < |Places(s)| && Places(s)[i].Copied?
    requires FillsOk(Fills(s, pid, call)) && e == After(Fills(s, pid, call), |Fills(s, pid, call)|, call.stale)
    ensures e.Str(Places(s)[i].w) == Probed(call.texts[i]) + [NUL]
  {
    var fills, w := Fills(s, pid, call), Places(s)[i].w;
    var f := ReadStr(w, call.texts[i], !s.Mount?);
    EverythingIsWritten(s, pid, call, i);
    forall g | g in fills
      ensures Agree(f, g) && Agree(EndStr(w), g)
    {
      NothingElseIsWritten(s, pid, call, g);
    }
    WrittenIsShown(fills, call.stale, f);
    WrittenIsShown(fills, call.stale, EndStr(w));
    assert e.Str(w) == e.Str(w)[..MAX_BUF_SIZE] + [e.Str(w)[MAX_BUF_SIZE]];
  }

  lemma OtherTextsOfFills(s: Syscall, pid: I32, call: Call, e: Event, w: Which)
    requires s != Open && CallOk(call) && Copied(w) !in Places(s)
    requires FillsOk(Fills(s, pid, call)) && e == After(Fills(s, pid, call), |Fills(s, pid, call)|, call.stale)
    ensures e.Str(w) == call.stale.Str(w)
  {
    var fills := Fills(s, pid, call);
    forall k | 0 <= k < |fills|
      ensures fills[k].ReadStr? || fills[k].EndStr? ==> fills[k].w != w
    {
      NothingElseIsWritten(s, pid, call, fills[k]);
    }
    UnwrittenTextStays(fills, |fills|, call.stale, w);
  }

  lemma HeadOfFills(s: Syscall, pid: I32, call: Call, e: Event)
    requires s != Open && CallOk(call)
    requires FillsOk(Fills(s, pid, call)) && e == After(Fills(s, pid, call), |Fills(s, pid, call)|, call.stale)
    ensures e.kind == KindOf(s) && e.pid == RecordPid(s, pid, call)
  {
    var fills := Fills(s, pid, call);
    forall g | g in fills
      ensures Agree(SetKind(KindOf(s)), g) && Agree(SetPid(RecordPid(s, pid, call)), g)
    {
      NothingElseIsWritten(s, pid, call, g);
    }
    EverythingIsWritten(s, pid, call, 0);
    WrittenIsShown(fills, call.stale, SetKind(KindOf(s)));
    WrittenIsShown(fills, call.stale, SetPid(RecordPid(s, pid, call)));
  }

  /** The writes of a case, carried out on any memory, leave the complete record of the call. */
  lemma FillsComplete(s: Syscall, pid: I32, call: Call)
    requires s != Open && CallOk(call)
    ensures FillsOk(Fills(s, pid, call))
    ensures Complete(s, pid, call, After(Fills(s, pid, call), |Fills(s, pid, call)|, call.stale))
  {
    FillsAreOk(s, pid, call);
    var e := After(Fills(s, pid, call), |Fills(s, pid, call)|, call.stale);
    HeadOfFills(s, pid, call, e);
    forall i | 0 <= i < 6
      ensures e.args[i] == if KeepsNumber(s, i) then call.args[i] else call.stale.args[i]
    {
      NumbersOfFills(s, pid, call, e, i);
    }
    forall i | 0 <= i < |Places(s)| && Places(s)[i].Copied?
      ensures e.Str(Places(s)[i].w) == Probed(call.texts[i]) + [NUL]
    {
      TextOfFills(s, pid, call, e, i);
    }
    forall w: Which | Copied(w) !in Places(s)
      ensures e.Str(w) == call.stale.Str(w)
    {
      OtherTextsOfFills(s, pid, call, e, w);
    }
  }
}
