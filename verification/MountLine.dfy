/** Mount prints three unescaped strings in a row, so its line need not determine its event. */
module MountLine {
  import opened CTypes
  import opened SyscallEvents
  import opened Producer
  import opened CaseWrites
  import opened MetricLine
  import opened Consumer
  import opened SyscallLine

  const TO_TARGET := "\", target=\""
  const TO_FSTYPE := "\", fstype=\""

  ghost predicate IsMount(e: Event) {
    e.WellFormed() && e.kind == EVENT_MOUNT && Terminated(e)
  }

  /** Everything between the first and the last quote around the three strings. */
  function Middle(s1: string, s2: string, s3: string): string {
    s1 + (TO_TARGET + (s2 + (TO_FSTYPE + s3)))
  }

  function EventMiddle(e: Event): string {
    Middle(CString(e.str1), CString(e.str2), CString(e.str3))
  }

  /** A way to cut m at the two delimiters into strings that fit a record. */
  predicate Cut(m: string, p: nat, q: nat) {
    && p + |TO_TARGET| <= q && q + |TO_FSTYPE| <= |m|
    && m[p..p + |TO_TARGET|] == TO_TARGET && m[q..q + |TO_FSTYPE|] == TO_FSTYPE
    && p <= MAX_BUF_SIZE && q - p - |TO_TARGET| <= MAX_BUF_SIZE && |m| - q - |TO_FSTYPE| <= MAX_BUF_SIZE
  }

  /** In the middle text of these strings the two delimiters occur in that order, at usable distances,
      only where the format put them. */
  ghost predicate OneCutIn(s1: string, s2: string, s3: string) {
    forall p: nat, q: nat | Cut(Middle(s1, s2, s3), p, q) :: p == |s1| && q == |s1| + |TO_TARGET| + |s2|
  }

  ghost predicate OneCut(e: Event) {
    OneCutIn(CString(e.str1), CString(e.str2), CString(e.str3))
  }

  // ----- the text of a mount line

  function MountFieldList(s1: string, s2: string, s3: string, flags: U64, data: U64): seq<Field> {
    [Field("source", S(s1)), Field("target", S(s2)), Field("fstype", S(s3)), Field("flags", Lx(flags)), Field("data", P(data))]
  }

  lemma MountFields(e: Event)
    requires IsMount(e)
    ensures Fields(e) == MountFieldList(CString(e.str1), CString(e.str2), CString(e.str3), e.args[3], e.args[4])
    ensures |CString(e.str1)| <= MAX_BUF_SIZE && |CString(e.str2)| <= MAX_BUF_SIZE && |CString(e.str3)| <= MAX_BUF_SIZE
  {
    var specs := Format(EVENT_MOUNT);
    assert specs[0].src == AsS(Str1) && specs[1].src == AsS(Str2) && specs[2].src == AsS(Str3);
    TerminatedLength(e.str1);
    TerminatedLength(e.str2);
    TerminatedLength(e.str3);
  }

  lemma ThreeStrings(fs: seq<Field>, s1: string, s2: string, s3: string)
    requires |fs| >= 3 && fs[0] == Field("source", S(s1)) && fs[1] == Field("target", S(s2)) && fs[2] == Field("fstype", S(s3))
    ensures FieldsText(fs) == ", source=\"" + (Middle(s1, s2, s3) + ("\"" + FieldsText(fs[3..])))
  {
    var tail := FieldsText(fs[3..]);
    assert fs[1..][1..][1..] == fs[3..] && fs[1..][0] == fs[1] && fs[1..][1..][0] == fs[2];
    assert FieldsText(fs[1..]) == FieldText(fs[1]) + FieldsText(fs[1..][1..]);
    assert FieldsText(fs[1..][1..]) == FieldText(fs[2]) + tail;
    Rebracket(s1, s2, s3, tail);
  }

  lemma StringField(key: string, s: string, rest: string)
    ensures FieldText(Field(key, S(s))) + rest == (", " + key + "=\"") + (s + ("\"" + rest))
  {
  }

  lemma Rebracket(s1: string, s2: string, s3: string, tail: string)
    ensures FieldText(Field("source", S(s1))) + (FieldText(Field("target", S(s2))) + (FieldText(Field("fstype", S(s3))) + tail))
         == ", source=\"" + (Middle(s1, s2, s3) + ("\"" + tail))
  {
    Literals();
    var end := s3 + ("\"" + tail);
    var rest := s2 + (TO_FSTYPE + end);
    StringField("fstype", s3, tail);
    StringField("target", s2, ", fstype=\"" + end);
    Associate("\"", ", fstype=\"", end);
    StringField("source", s1, ", target=\"" + rest);
    Associate("\"", ", target=\"", rest);
    Glue(s1, TO_TARGET, s2, TO_FSTYPE, s3, "\"" + tail);
  }

  lemma Literals()
    ensures ", " + "source" + "=\"" == ", source=\""
    ensures ", " + "target" + "=\"" == ", target=\""
    ensures ", " + "fstype" + "=\"" == ", fstype=\""
    ensures "\"" + ", target=\"" == TO_TARGET && "\"" + ", fstype=\"" == TO_FSTYPE
  {
  }

  lemma Glue(a: string, b: string, c: string, d: string, e: string, f: string)
    ensures a + (b + (c + (d + (e + f)))) == (a + (b + (c + (d + e)))) + f
  {
    Associate(d, e, f);
    Associate(c, d + e, f);
    Associate(b, c + (d + e), f);
    Associate(a, b + (c + (d + e)), f);
  }

  /** The fields of two mounts have the same text exactly when flags, data and middle text agree. */
  lemma SameMountText(fs: seq<Field>, gs: seq<Field>, s1: string, s2: string, s3: string, x: U64, p: U64,
                      t1: string, t2: string, t3: string, y: U64, q: U64)
    requires fs == MountFieldList(s1, s2, s3, x, p) && gs == MountFieldList(t1, t2, t3, y, q)
    ensures FieldsText(fs) == FieldsText(gs) <==> x == y && p == q && Middle(s1, s2, s3) == Middle(t1, t2, t3)
  {
    var m, m' := Middle(s1, s2, s3), Middle(t1, t2, t3);
    ThreeStrings(fs, s1, s2, s3);
    ThreeStrings(gs, t1, t2, t3);
    var ft, gt := fs[3..], gs[3..];
    assert ft == [Field("flags", Lx(x)), Field("data", P(p))] && gt == [Field("flags", Lx(y)), Field("data", P(q))];
    if FieldsText(fs) == FieldsText(gs) {
      SamePrefix(", source=\"", m + ("\"" + FieldsText(ft)), m' + ("\"" + FieldsText(gt)));
      Associate(m, "\"", FieldsText(ft));
      Associate(m', "\"", FieldsText(gt));
      ReadAllBack(ft, gt, m + "\"", m' + "\"");
      assert ft[0] == gt[0] && ft[1] == gt[1];
      SameSuffix("\"", m, m');
    }
  }

  /** Two mount lines agree exactly when time, pid, flags, data and the middle text agree. */
  lemma SameMountLine(e: Event, t: int, f: Event, u: int)
    requires IsMount(e) && IsMount(f)
    ensures Render(e, t) == Render(f, u) <==>
            && t == u && e.pid == f.pid && e.args[3] == f.args[3] && e.args[4] == f.args[4]
            && EventMiddle(e) == EventMiddle(f)
  {
    MountFields(e);
    MountFields(f);
    SameMountText(Fields(e), Fields(f), CString(e.str1), CString(e.str2), CString(e.str3), e.args[3], e.args[4],
                  CString(f.str1), CString(f.str2), CString(f.str3), f.args[3], f.args[4]);
    if Render(e, t) == Render(f, u) {
      SameLine(e, t, f, u);
    }
  }

  // ----- the exact condition

  function Pad(s: string): (r: string)
    requires |s| <= MAX_BUF_SIZE && NUL !in s
    ensures |r| == STR_SIZE && r[MAX_BUF_SIZE] == NUL && CString(r) == s
  {
    var r := s + Zeros(STR_SIZE - |s|);
    assert r[..|s|] == s;
    CStringIs(r, |s|);
    r
  }

  /** The same mount event with other strings. */
  function WithStrings(e: Event, s1: string, s2: string, s3: string): (f: Event)
    requires NUL !in s1 + s2 + s3
    requires |s1| <= MAX_BUF_SIZE && |s2| <= MAX_BUF_SIZE && |s3| <= MAX_BUF_SIZE
  {
    e.(str1 := Pad(s1), str2 := Pad(s2), str3 := Pad(s3))
  }

  lemma MountIsTerminated(e: Event)
    requires e.WellFormed() && e.kind == EVENT_MOUNT
    requires e.str1[MAX_BUF_SIZE] == NUL && e.str2[MAX_BUF_SIZE] == NUL && e.str3[MAX_BUF_SIZE] == NUL
    ensures IsMount(e)
  {
    assert forall w: Which :: e.Str(w)[MAX_BUF_SIZE] == NUL;
  }

  lemma WithStringsIsMount(e: Event, s1: string, s2: string, s3: string)
    requires IsMount(e) && NUL !in s1 + s2 + s3
    requires |s1| <= MAX_BUF_SIZE && |s2| <= MAX_BUF_SIZE && |s3| <= MAX_BUF_SIZE
    ensures var f := WithStrings(e, s1, s2, s3);
            && IsMount(f) && EventMiddle(f) == Middle(s1, s2, s3) && f.pid == e.pid && f.args == e.args
            && CString(f.str1) == s1 && CString(f.str2) == s2 && CString(f.str3) == s3
  {
    MountIsTerminated(WithStrings(e, s1, s2, s3));
  }

  lemma MiddleOfCut(m: string, p: nat, q: nat)
    requires Cut(m, p, q)
    ensures Middle(m[..p], m[p + |TO_TARGET|..q], m[q + |TO_FSTYPE|..]) == m
  {
  }

  lemma MiddleHasCut(s1: string, s2: string, s3: string)
    requires |s1| <= MAX_BUF_SIZE && |s2| <= MAX_BUF_SIZE && |s3| <= MAX_BUF_SIZE
    ensures var m, p, q := Middle(s1, s2, s3), |s1|, |s1| + |TO_TARGET| + |s2|;
            && Cut(m, p, q)
            && m[..p] == s1 && m[p + |TO_TARGET|..q] == s2 && m[q + |TO_FSTYPE|..] == s3
  {
  }

  lemma MiddleHasNoNul(e: Event)
    ensures NUL !in EventMiddle(e)
  {
  }

  /** No other mount event prints the line of e. */
  ghost predicate Determined(e: Event)
    requires IsMount(e)
  {
    forall f: Event, t: int, u: int | IsMount(f) && Render(e, t) == Render(f, u) ::
      t == u && f.pid == e.pid && Fields(f) == Fields(e)
  }

  lemma OneCutSameStrings(e: Event, f: Event)
    requires IsMount(e) && IsMount(f) && OneCut(e) && EventMiddle(e) == EventMiddle(f)
    ensures CString(e.str1) == CString(f.str1) && CString(e.str2) == CString(f.str2) && CString(e.str3) == CString(f.str3)
  {
    MountFields(e);
    MountFields(f);
    MiddleHasCut(CString(e.str1), CString(e.str2), CString(e.str3));
    MiddleHasCut(CString(f.str1), CString(f.str2), CString(f.str3));
  }

  lemma OneCutDetermines(e: Event, f: Event, t: int, u: int)
    requires IsMount(e) && IsMount(f) && OneCut(e) && Render(e, t) == Render(f, u)
    ensures t == u && f.pid == e.pid && Fields(f) == Fields(e)
  {
    SameMountLine(e, t, f, u);
    OneCutSameStrings(e, f);
    MountFields(e);
    MountFields(f);
  }

  lemma DeterminedHasOneCut(e: Event, p: nat, q: nat)
    requires IsMount(e) && Determined(e) && Cut(EventMiddle(e), p, q)
    ensures p == |CString(e.str1)| && q == |CString(e.str1)| + |TO_TARGET| + |CString(e.str2)|
  {
    var m := EventMiddle(e);
    var s1, s2, s3 := m[..p], m[p + |TO_TARGET|..q], m[q + |TO_FSTYPE|..];
    MiddleHasNoNul(e);
    MiddleOfCut(m, p, q);
    WithStringsIsMount(e, s1, s2, s3);
    var f := WithStrings(e, s1, s2, s3);
    SameMountLine(e, 0, f, 0);
    assert Fields(f) == Fields(e);
    MountFields(e);
    MountFields(f);
    assert Fields(f)[0].val.s == s1 && Fields(f)[1].val.s == s2;
  }

  /** A mount line determines its event exactly when its text has a single cut. */
  lemma MountIsDeterminedIffOneCut(e: Event)
    requires IsMount(e)
    ensures Determined(e) <==> OneCut(e)
  {
    if OneCut(e) {
      forall f: Event, t: int, u: int | IsMount(f) && Render(e, t) == Render(f, u)
        ensures t == u && f.pid == e.pid && Fields(f) == Fields(e)
      {
        OneCutDetermines(e, f, t, u);
      }
    }
    if Determined(e) {
      forall p: nat, q: nat | Cut(Middle(CString(e.str1), CString(e.str2), CString(e.str3)), p, q)
        ensures p == |CString(e.str1)| && q == |CString(e.str1)| + |TO_TARGET| + |CString(e.str2)|
      {
        DeterminedHasOneCut(e, p, q);
      }
    }
  }

  lemma CutHasFourQuotes(m: string, p: nat, q: nat)
    requires Cut(m, p, q)
    ensures p + 10 < q && q + 10 < |m| && m[p] == '"' && m[p + 10] == '"' && m[q] == '"' && m[q + 10] == '"'
  {
    assert m[p] == m[p..p + 11][0] && m[p + 10] == m[p..p + 11][10];
    assert m[q] == m[q..q + 11][0] && m[q + 10] == m[q..q + 11][10];
  }

  /** Strings without quotes leave four quotes in the middle text, and a cut needs all four. */
  lemma NoQuotesMeansOneCut(e: Event)
    requires IsMount(e)
    requires '"' !in CString(e.str1) && '"' !in CString(e.str2) && '"' !in CString(e.str3)
    ensures OneCut(e)
  {
    QuotesOfMiddle(CString(e.str1), CString(e.str2), CString(e.str3));
    forall p: nat, q: nat | Cut(Middle(CString(e.str1), CString(e.str2), CString(e.str3)), p, q)
      ensures p == |CString(e.str1)| && q == |CString(e.str1)| + |TO_TARGET| + |CString(e.str2)|
    {
      CutHasFourQuotes(EventMiddle(e), p, q);
    }
  }

  lemma QuotesOfMiddle(s1: string, s2: string, s3: string)
    requires '"' !in s1 && '"' !in s2 && '"' !in s3
    ensures var m, a, b := Middle(s1, s2, s3), |s1|, |s1| + |TO_TARGET| + |s2|;
            forall i | 0 <= i < |m| && m[i] == '"' :: i == a || i == a + 10 || i == b || i == b + 10
  {
  }

  lemma MoveDelimiter(x: string, y: string, z: string, w: string)
    ensures Middle(x + TO_TARGET + y, z, w) == Middle(x, y + TO_TARGET + z, w)
  {
  }

  /** The property fails for mount: whatever the strings x, y, z and w, the source `x", target="y`
      with target `z`, and the source `x` with target `y", target="z`, print the same line. */
  lemma MountIsAmbiguous(e: Event, x: string, y: string, z: string, w: string)
    requires IsMount(e) && NUL !in x + y + z + w
    requires |x| + |TO_TARGET| + |y| <= MAX_BUF_SIZE && |y| + |TO_TARGET| + |z| <= MAX_BUF_SIZE && |w| <= MAX_BUF_SIZE
    ensures NUL !in x + TO_TARGET + y + z + w && NUL !in x + (y + TO_TARGET + z) + w
    ensures var f, g := WithStrings(e, x + TO_TARGET + y, z, w), WithStrings(e, x, y + TO_TARGET + z, w);
            IsMount(f) && IsMount(g) && Render(f, 0) == Render(g, 0) && Fields(f) != Fields(g)
  {
    NoNulInDelimiter(x, y, z, w);
    var f, g := WithStrings(e, x + TO_TARGET + y, z, w), WithStrings(e, x, y + TO_TARGET + z, w);
    WithStringsIsMount(e, x + TO_TARGET + y, z, w);
    WithStringsIsMount(e, x, y + TO_TARGET + z, w);
    MoveDelimiter(x, y, z, w);
    SameMountLine(f, 0, g, 0);
    MountFields(f);
    MountFields(g);
    assert Fields(f)[0].val.s == x + TO_TARGET + y && Fields(g)[0].val.s == x;
  }

  lemma NoNulInDelimiter(x: string, y: string, z: string, w: string)
    requires NUL !in x + y + z + w
    ensures NUL !in x + TO_TARGET + y + z + w && NUL !in x + (y + TO_TARGET + z) + w
  {
    assert forall c | c in x || c in y || c in z || c in w :: c in x + y + z + w;
  }

  // ----- the same for calls

  /** Every mount record is the complete record of some mount call. */
  lemma CallOf(e: Event) returns (call: Call)
    requires IsMount(e)
    ensures CallOk(call) && Complete(Mount, e.pid, call, e)
  {
    call := Call(0, e.args, None, 0, true, e,
                 [Some(e.str1[..MAX_BUF_SIZE]), Some(e.str2[..MAX_BUF_SIZE]), Some(e.str3[..MAX_BUF_SIZE]), None, None, None]);
    var specs := Format(EVENT_MOUNT);
    assert specs[0].src == AsS(Str1) && specs[1].src == AsS(Str2) && specs[2].src == AsS(Str3);
    MountIsComplete(e.pid, call, e);
  }

  lemma CompleteMount(pid: I32, call: Call, e: Event)
    requires CallOk(call) && Complete(Mount, pid, call, e)
    ensures e.pid == pid && e.args[3] == call.args[3] && e.args[4] == call.args[4]
    ensures e.str1 == Probed(call.texts[0]) + [NUL] && e.str2 == Probed(call.texts[1]) + [NUL]
    ensures e.str3 == Probed(call.texts[2]) + [NUL]
  {
    assert KeepsNumber(Mount, 3) && KeepsNumber(Mount, 4);
    var places := Places(Mount);
    assert places[0].Copied? && places[1].Copied? && places[2].Copied?;
    assert e.Str(places[0].w) == e.str1 && e.Str(places[1].w) == e.str2 && e.Str(places[2].w) == e.str3;
  }

  lemma RecordOfMount(pid: I32, call: Call)
    requires CallOk(call)
    ensures var e := Produced(Mount, pid, call);
            && IsMount(e) && e.pid == pid && e.args[3] == call.args[3] && e.args[4] == call.args[4]
            && CString(e.str1) == TextOf(call, 0) && CString(e.str2) == TextOf(call, 1) && CString(e.str3) == TextOf(call, 2)
  {
    RenderedRecordIsTheCall(Mount, pid, call, 0);
    FillsComplete(Mount, pid, call);
    CompleteMount(pid, call, Produced(Mount, pid, call));
    TerminatorEndsString(Probed(call.texts[0]));
    TerminatorEndsString(Probed(call.texts[1]));
    TerminatorEndsString(Probed(call.texts[2]));
  }

  /** No call that looks different prints the line of this mount call. */
  ghost predicate MountIsReadable(pid: I32, call: Call)
    requires CallOk(call)
  {
    forall s: Syscall, pid': I32, c: Call, t: int, u: int |
      s != Open && CallOk(c) && CallLine(Mount, pid, call, t) == CallLine(s, pid', c, u) ::
      t == u && LooksAlike(Mount, pid, call, s, pid', c)
  }

  /** A mount call can be told from its line exactly when its three texts have a single cut. */
  lemma MountCallIsReadableIffOneCut(pid: I32, call: Call)
    requires CallOk(call)
    ensures MountIsReadable(pid, call) <==> OneCutIn(TextOf(call, 0), TextOf(call, 1), TextOf(call, 2))
  {
    var e := Produced(Mount, pid, call);
    RecordOfMount(pid, call);
    MountIsDeterminedIffOneCut(e);
    if Determined(e) {
      forall s: Syscall, pid': I32, c: Call, t: int, u: int |
        s != Open && CallOk(c) && CallLine(Mount, pid, call, t) == CallLine(s, pid', c, u)
        ensures t == u && LooksAlike(Mount, pid, call, s, pid', c)
      {
        DeterminedMountCall(pid, call, t, s, pid', c, u);
      }
    }
    if MountIsReadable(pid, call) {
      forall f: Event, t: int, u: int | IsMount(f) && Render(e, t) == Render(f, u)
        ensures t == u && f.pid == e.pid && Fields(f) == Fields(e)
      {
        var c := CallOf(f);
        CompleteRecordIsTheCall(Mount, f.pid, c, f, u);
        RenderedRecordIsTheCall(Mount, pid, call, t);
        assert LooksAlike(Mount, pid, call, Mount, f.pid, c);
      }
    }
  }

  lemma DeterminedMountCall(pid: I32, call: Call, t: int, s: Syscall, pid': I32, c: Call, u: int)
    requires CallOk(call) && s != Open && CallOk(c) && CallLine(Mount, pid, call, t) == CallLine(s, pid', c, u)
    requires IsMount(Produced(Mount, pid, call)) && Determined(Produced(Mount, pid, call))
    ensures t == u && LooksAlike(Mount, pid, call, s, pid', c)
  {
    if s != Mount {
      LineDeterminesCall(s, pid', c, u, Mount, pid, call, t);
    } else {
      RecordOfMount(pid, call);
      RecordOfMount(pid', c);
      RenderedRecordIsTheCall(Mount, pid, call, t);
      RenderedRecordIsTheCall(Mount, pid', c, u);
    }
  }

  /** The same mount call with other texts. */
  function WithTexts(call: Call, s1: string, s2: string, s3: string): (c: Call)
    requires CallOk(call) && NUL !in s1 && NUL !in s2 && NUL !in s3
    requires |s1| <= MAX_BUF_SIZE && |s2| <= MAX_BUF_SIZE && |s3| <= MAX_BUF_SIZE
    ensures CallOk(c) && TextOf(c, 0) == s1 && TextOf(c, 1) == s2 && TextOf(c, 2) == s3 && c.args == call.args
  {
    WithText(WithText(WithText(call, 0, s1), 1, s2), 2, s3)
  }

  /** The calls behind MountIsAmbiguous: both print one line, and look different. */
  lemma MountCallsAreAmbiguous(pid: I32, call: Call, t: int, x: string, y: string, z: string, w: string)
    requires CallOk(call) && NUL !in x + y + z + w
    requires |x| + |TO_TARGET| + |y| <= MAX_BUF_SIZE && |y| + |TO_TARGET| + |z| <= MAX_BUF_SIZE && |w| <= MAX_BUF_SIZE
    ensures NUL !in x + TO_TARGET + y + z + w && NUL !in x + (y + TO_TARGET + z) + w
    ensures var c, d := WithTexts(call, x + TO_TARGET + y, z, w), WithTexts(call, x, y + TO_TARGET + z, w);
            && CallLine(Mount, pid, c, t) == CallLine(Mount, pid, d, t)
            && !LooksAlike(Mount, pid, c, Mount, pid, d)
  {
    NoNulInDelimiter(x, y, z, w);
    var c, d := WithTexts(call, x + TO_TARGET + y, z, w), WithTexts(call, x, y + TO_TARGET + z, w);
    MoveDelimiter(x, y, z, w);
    SameMiddleSameLine(pid, c, d, t);
    DifferentSources(pid, c, d);
  }

  lemma SameMiddleSameLine(pid: I32, c: Call, d: Call, t: int)
    requires CallOk(c) && CallOk(d) && c.args == d.args
    requires Middle(TextOf(c, 0), TextOf(c, 1), TextOf(c, 2)) == Middle(TextOf(d, 0), TextOf(d, 1), TextOf(d, 2))
    ensures CallLine(Mount, pid, c, t) == CallLine(Mount, pid, d, t)
  {
    RecordOfMount(pid, c);
    RecordOfMount(pid, d);
    RenderedRecordIsTheCall(Mount, pid, c, t);
    RenderedRecordIsTheCall(Mount, pid, d, t);
    SameMountLine(Produced(Mount, pid, c), t, Produced(Mount, pid, d), t);
  }

  lemma DifferentSources(pid: I32, c: Call, d: Call)
    requires CallOk(c) && CallOk(d) && TextOf(c, 0) != TextOf(d, 0)
    ensures !LooksAlike(Mount, pid, c, Mount, pid, d)
  {
    assert ArgumentFields(Parameters(Mount), c)[0].val.s == TextOf(c, 0);
    assert ArgumentFields(Parameters(Mount), d)[0].val.s == TextOf(d, 0);
  }

  lemma AmbiguousTexts()
    ensures NUL !in "a" + "b" + "c" + "ext4"
    ensures "a" + TO_TARGET + "b" == "a\", target=\"b" && "b" + TO_TARGET + "c" == "b\", target=\"c"
  {
  }

  /** A concrete pair: `mount("a\", target=\"b", "c", "ext4")` and `mount("a", "b\", target=\"c", "ext4")`,
      whatever else the calls have in common. */
  lemma AmbiguousCalls(pid: I32, call: Call, t: int) returns (c: Call, d: Call)
    requires CallOk(call)
    ensures CallOk(c) && CallOk(d) && c.args == d.args == call.args
    ensures TextOf(c, 0) == "a\", target=\"b" && TextOf(c, 1) == "c" && TextOf(c, 2) == "ext4"
    ensures TextOf(d, 0) == "a" && TextOf(d, 1) == "b\", target=\"c" && TextOf(d, 2) == "ext4"
    ensures CallLine(Mount, pid, c, t) == CallLine(Mount, pid, d, t) && !LooksAlike(Mount, pid, c, Mount, pid, d)
  {
    AmbiguousTexts();
    MountCallsAreAmbiguous(pid, call, t, "a", "b", "c", "ext4");
    c := WithTexts(call, "a" + TO_TARGET + "b", "c", "ext4");
    d := WithTexts(call, "a", "b" + TO_TARGET + "c", "ext4");
  }
}
